/** The `sites` table (main.py:13-17) and `get_sites_dict` (main.py:68-72),
    which turns its rows into a dictionary from site name to coordinates.
    Coordinates are of an arbitrary type `C`: the program only stores and
    passes them on. */
module Sites {

  datatype Site<C> = Site(id: nat, name: string, lat: C, lon: C)

  /** The `unique=True` constraint on `sites.name` (main.py:16). */
  predicate UniqueNames<C>(sites: seq<Site<C>>)
  {
    forall i, j :: 0 <= i < j < |sites| ==> sites[i].name != sites[j].name
  }

  function Names<C>(sites: seq<Site<C>>): set<string>
  {
    set i | 0 <= i < |sites| :: sites[i].name
  }

  /** `{x.name: (x.lat, x.lon) for x in s}`: later rows overwrite earlier
      ones with the same name. */
  function SitesDict<C>(sites: seq<Site<C>>): (d: map<string, (C, C)>)
    ensures d.Keys == Names(sites)
  {
    if sites == [] then map[]
    else
      var init, s := sites[..|sites| - 1], sites[|sites| - 1];
      assert Names(sites) == Names(init) + {s.name} by {
        forall n | n in Names(sites) ensures n in Names(init) + {s.name} {
          var i :| 0 <= i < |sites| && sites[i].name == n;
          if i < |init| { assert init[i].name == n; }
        }
        forall n | n in Names(init) ensures n in Names(sites) {
          var i :| 0 <= i < |init| && init[i].name == n;
          assert sites[i].name == n;
        }
      }
      SitesDict(init)[s.name := (s.lat, s.lon)]
  }

  /** Each name maps to the coordinates of the last row that carries it. */
  lemma {:induction false} LastRowWins<C>(sites: seq<Site<C>>, i: nat)
    requires i < |sites|
    requires forall j :: i < j < |sites| ==> sites[j].name != sites[i].name
    ensures SitesDict(sites)[sites[i].name] == (sites[i].lat, sites[i].lon)
  {
    if i < |sites| - 1 {
      var init := sites[..|sites| - 1];
      LastRowWins(init, i);
    }
  }

  /** With unique names every stored site appears under its own name with
      its own coordinates. */
  lemma SitesDictLookup<C>(sites: seq<Site<C>>, i: nat)
    requires UniqueNames(sites)
    requires i < |sites|
    ensures SitesDict(sites)[sites[i].name] == (sites[i].lat, sites[i].lon)
  {
    LastRowWins(sites, i);
  }

  /** With unique names the dictionary has exactly one entry per stored site. */
  lemma {:induction false} SitesDictSize<C>(sites: seq<Site<C>>)
    requires UniqueNames(sites)
    ensures |SitesDict(sites)| == |sites|
  {
    if sites != [] {
      var init, s := sites[..|sites| - 1], sites[|sites| - 1];
      assert UniqueNames(init);
      SitesDictSize(init);
      assert forall i :: 0 <= i < |init| ==> init[i].name != s.name by {
        forall i | 0 <= i < |init| ensures init[i].name != s.name {
          assert init[i] == sites[i];
        }
      }
      assert s.name !in Names(init);
    }
  }
}
