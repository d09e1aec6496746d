/** The controller's list of index entries as a value: what adding, removing
    and re-titling entries does to it, and how it mirrors the list of
    playlists when the two are kept in step. */
module MapIndex {
  import opened Utils
  import opened PlaylistMaps
  import opened Sweeps

  /** What `add_map` is handed: one title, or an array of titles. */
  datatype MapArg = One(title: string) | Many(titles: seq<string>)

  function MapSlugs(ms: seq<MapValue>): (r: seq<Option<string>>)
    ensures |r| == |ms|
    ensures forall i :: 0 <= i < |ms| ==> r[i] == ms[i].slug
  {
    seq(|ms|, i requires 0 <= i < |ms| => ms[i].slug)
  }

  function MapTitles(ms: seq<MapValue>): (r: seq<Option<string>>)
    ensures |r| == |ms|
    ensures forall i :: 0 <= i < |ms| ==> r[i] == ms[i].title
  {
    seq(|ms|, i requires 0 <= i < |ms| => ms[i].title)
  }

  /** `get_map(t)` finds an entry: the title is non-empty and some entry has its slug. */
  predicate HasMap(ms: seq<MapValue>, t: string) {
    t != "" && Some(Slug(t)) in MapSlugs(ms)
  }

  /** The position `get_map(t)` finds: the first entry with the slug of `t`. */
  function FindMap(ms: seq<MapValue>, t: string): nat {
    IndexOf(MapSlugs(ms), Some(Slug(t)))
  }

  /** One title of `add_map`: appended as a new entry unless `get_map` finds
      it. A missing or empty title inside an array is not found, so it
      appends an unset entry. */
  function MapAddedOne(ms: seq<MapValue>, t: string): seq<MapValue> {
    if HasMap(ms, t) then ms else ms + [Titled(Unset, t)]
  }

  /** The titles of an array handed to `add_map`, in order. */
  function MapsAddedAll(ms: seq<MapValue>, ts: seq<string>): seq<MapValue> {
    if ts == [] then ms else MapAddedOne(MapsAddedAll(ms, ts[..|ts| - 1]), ts[|ts| - 1])
  }

  /** `add_map`: a single empty title is rejected outright. */
  function MapsAdded(ms: seq<MapValue>, a: MapArg): seq<MapValue> {
    match a
    case One(t) => if t == "" then ms else MapAddedOne(ms, t)
    case Many(ts) => MapsAddedAll(ms, ts)
  }

  /** The test `remove_map(t)` applies to each entry. */
  function SlugIs(t: string): MapValue -> bool {
    (m: MapValue) => m.slug == Some(Slug(t))
  }

  /** `remove_map`: nothing when `get_map` finds no entry, else the
      delete-compact-advance scan over the entries with the slug of `t`. */
  function MapRemoved(ms: seq<MapValue>, t: string): seq<MapValue> {
    if !HasMap(ms, t) then ms else Sweep(ms, SlugIs(t))
  }

  /** `edit_map(t, nt)`: a found entry takes the new title (an empty or
      missing one is rejected); otherwise the new title, or `t` when none is
      given, goes to `add_map`. */
  function MapEdited(ms: seq<MapValue>, t: string, nt: Option<string>): seq<MapValue> {
    if t == "" then ms
    else if !HasMap(ms, t) then MapsAdded(ms, One(nt.GetOr(t)))
    else ms[FindMap(ms, t) := Titled(ms[FindMap(ms, t)], nt.GetOr(""))]
  }

  /** `edit_map` with an empty new title (a `null` one) changes nothing. */
  lemma MapEditedEmpty(ms: seq<MapValue>, t: string)
    ensures MapEdited(ms, t, Some("")) == ms
  {
    if t != "" && HasMap(ms, t) {
      var k := FindMap(ms, t);
      assert ms[k := Titled(ms[k], "")] == ms;
    }
  }

  /** No two set entries share a slug. */
  predicate UniqueSlugs(ms: seq<MapValue>) {
    forall i, j :: 0 <= i < j < |ms| && ms[i].slug.Some? ==> ms[i].slug != ms[j].slug
  }

  predicate AllConsistent(ms: seq<MapValue>) {
    forall i :: 0 <= i < |ms| ==> Consistent(ms[i])
  }

  /** Adding one title keeps entries consistent and slugs unique; afterwards
      a non-empty title is found, and nothing before it moved. */
  lemma MapAddedOneSpec(ms: seq<MapValue>, t: string)
    requires AllConsistent(ms) && UniqueSlugs(ms)
    ensures var r := MapAddedOne(ms, t);
            AllConsistent(r) && UniqueSlugs(r) && ms <= r && |r| <= |ms| + 1
            && (t != "" ==> HasMap(r, t))
  {
    var r := MapAddedOne(ms, t);
    if !HasMap(ms, t) {
      assert MapSlugs(r)[|ms|] == Titled(Unset, t).slug;
      if t != "" {
        forall i | 0 <= i < |ms| && ms[i].slug.Some? ensures ms[i].slug != r[|ms|].slug {
          assert MapSlugs(ms)[i] == ms[i].slug;
        }
      }
    }
  }

  /** Adding any array of titles keeps entries consistent and slugs unique,
      only appends, and leaves every non-empty title of the array found. */
  lemma {:induction false} MapsAddedAllSpec(ms: seq<MapValue>, ts: seq<string>)
    requires AllConsistent(ms) && UniqueSlugs(ms)
    ensures var r := MapsAddedAll(ms, ts);
            AllConsistent(r) && UniqueSlugs(r) && ms <= r && |r| <= |ms| + |ts|
            && forall i :: 0 <= i < |ts| && ts[i] != "" ==> HasMap(r, ts[i])
  {
    if ts != [] {
      var init := ts[..|ts| - 1];
      var t := ts[|ts| - 1];
      MapsAddedAllSpec(ms, init);
      var q := MapsAddedAll(ms, init);
      MapAddedOneSpec(q, t);
      var r := MapAddedOne(q, t);
      forall i | 0 <= i < |ts| && ts[i] != "" ensures HasMap(r, ts[i]) {
        if i < |init| {
          assert init[i] == ts[i];
          var j :| 0 <= j < |q| && MapSlugs(q)[j] == Some(Slug(ts[i]));
          assert MapSlugs(r)[j] == Some(Slug(ts[i]));
        }
      }
    }
  }

  /** With unique slugs, `remove_map` of a found title removes exactly that
      entry, keeps the others in order, and the title is no longer found. */
  lemma MapRemovedSingle(ms: seq<MapValue>, t: string)
    requires UniqueSlugs(ms) && HasMap(ms, t)
    ensures var k := FindMap(ms, t);
            k < |ms| && MapRemoved(ms, t) == RemoveAt(ms, k) && !HasMap(MapRemoved(ms, t), t)
  {
    var k := FindMap(ms, t);
    assert MapSlugs(ms)[k] == Some(Slug(t));
    forall i | 0 <= i < |ms| && i != k ensures !SlugIs(t)(ms[i]) {
      if i < k {
        assert MapSlugs(ms)[i] != Some(Slug(t));
      }
    }
    SweepSingleHit(ms, k, SlugIs(t));
    var r := RemoveAt(ms, k);
    forall i | 0 <= i < |r| ensures MapSlugs(r)[i] != Some(Slug(t)) {
      var i' := if i < k then i else i + 1;
      assert r[i] == ms[i'];
    }
  }

  /** `remove_map` keeps entries consistent and slugs unique. */
  lemma MapRemovedKeepsUnique(ms: seq<MapValue>, t: string)
    requires AllConsistent(ms) && UniqueSlugs(ms)
    ensures AllConsistent(MapRemoved(ms, t)) && UniqueSlugs(MapRemoved(ms, t))
  {
    if HasMap(ms, t) {
      MapRemovedSingle(ms, t);
      var k := FindMap(ms, t);
      var r := RemoveAt(ms, k);
      forall i, j | 0 <= i < j < |r| && r[i].slug.Some? ensures r[i].slug != r[j].slug {
        var i' := if i < k then i else i + 1;
        var j' := if j < k then j else j + 1;
        assert r[i] == ms[i'] && r[j] == ms[j'];
      }
    }
  }

  /** Two adjacent entries with the slug: `remove_map` deletes the first and
      skips the second, which stays. */
  lemma MapRemovedSkipsDuplicate(a: MapValue, b: MapValue, t: string)
    requires t != "" && a.slug == Some(Slug(t)) && b.slug == Some(Slug(t))
    ensures MapRemoved([a, b], t) == [b]
  {
    assert MapSlugs([a, b])[0] == Some(Slug(t));
    SweepMissesNeighbour(a, b, [], SlugIs(t));
    assert [a, b] + [] == [a, b];
  }

  /** `edit_map` keeps entries consistent, and keeps slugs unique when the
      new title's slug is not already taken by another entry. */
  lemma MapEditedSpec(ms: seq<MapValue>, t: string, n: string)
    requires AllConsistent(ms) && UniqueSlugs(ms)
    requires n != "" ==> !HasMap(ms, n) || (HasMap(ms, t) && Slug(n) == Slug(t))
    ensures AllConsistent(MapEdited(ms, t, Some(n))) && UniqueSlugs(MapEdited(ms, t, Some(n)))
  {
    if t != "" && !HasMap(ms, t) {
      MapAddedOneSpec(ms, n);
    } else if t != "" {
      var k := FindMap(ms, t);
      var r := MapEdited(ms, t, Some(n));
      assert MapSlugs(ms)[k] == Some(Slug(t));
      if n != "" {
        forall i, j | 0 <= i < j < |r| && r[i].slug.Some? ensures r[i].slug != r[j].slug {
          if i == k || j == k {
            var o := if i == k then j else i;
            assert MapSlugs(ms)[o] == ms[o].slug;
            if Slug(n) == Slug(t) {
              assert ms[o].slug != ms[k].slug;
            }
          }
        }
      }
    }
  }

  /** `edit_map` does not check the new title: re-titling one entry to the
      title of another leaves two entries with one slug. */
  lemma EditMapCanDuplicate(a: string, b: string)
    requires a != "" && b != "" && Slug(a) != Slug(b)
    ensures var r := MapEdited([Titled(Unset, a), Titled(Unset, b)], a, Some(b));
            |r| == 2 && r[0].slug == r[1].slug && !UniqueSlugs(r)
  {
    var ms := [Titled(Unset, a), Titled(Unset, b)];
    assert MapSlugs(ms)[0] == Some(Slug(a));
  }

  /** The entries that mirror a list of playlist titles, one per playlist. */
  function Mirrors(ts: seq<string>): (r: seq<MapValue>)
    ensures |r| == |ts|
    ensures forall i :: 0 <= i < |ts| ==> r[i] == Titled(Unset, ts[i])
  {
    seq(|ts|, i requires 0 <= i < |ts| => Titled(Unset, ts[i]))
  }

  /** Playlist titles that are non-empty and keyed by their slugs. */
  predicate KeyedBy(ts: seq<string>, slugs: seq<string>) {
    |ts| == |slugs| && forall i :: 0 <= i < |ts| ==> ts[i] != "" && slugs[i] == Slug(ts[i])
  }

  /** Re-titling one playlist with a title whose slug is new keeps the
      playlists keyed and their slugs distinct. */
  lemma KeyedUpdate(ts: seq<string>, slugs: seq<string>, k: nat, t: string)
    requires KeyedBy(ts, slugs) && Distinct(slugs) && k < |ts| && t != "" && Slug(t) !in slugs
    ensures KeyedBy(ts[k := t], slugs[k := Slug(t)]) && Distinct(slugs[k := Slug(t)])
  {
    var s := slugs[k := Slug(t)];
    forall i, j | 0 <= i < j < |s| ensures s[i] != s[j] {
      if i != k && j != k {
        assert s[i] == slugs[i] && s[j] == slugs[j];
      } else if i == k {
        assert s[j] == slugs[j];
      } else {
        assert s[i] == slugs[i];
      }
    }
  }

  /** In mirroring entries, `get_map(t)` finds exactly what a search of the
      playlist slugs finds, at the same position. */
  lemma MirrorsFind(ts: seq<string>, slugs: seq<string>, t: string)
    requires KeyedBy(ts, slugs)
    ensures HasMap(Mirrors(ts), t) <==> t != "" && Slug(t) in slugs
    ensures FindMap(Mirrors(ts), t) == IndexOf(slugs, Slug(t))
  {
    var ms := Mirrors(ts);
    var k := IndexOf(slugs, Slug(t));
    var k' := FindMap(ms, t);
    forall i | 0 <= i < |ts| ensures MapSlugs(ms)[i] == Some(slugs[i]) {
    }
    if Slug(t) in slugs {
      assert MapSlugs(ms)[k] == Some(Slug(t));
    }
  }

  /** Mirrors stay in step when a playlist with a new slug is appended and
      its title goes through `add_map`. */
  lemma MirrorsAdd(ts: seq<string>, slugs: seq<string>, t: string)
    requires KeyedBy(ts, slugs) && t != "" && Slug(t) !in slugs
    ensures MapsAdded(Mirrors(ts), One(t)) == Mirrors(ts + [t])
  {
    MirrorsFind(ts, slugs, t);
  }

  /** Mirrors stay in step when the playlist with a slug is removed and its
      title goes through `remove_map`. */
  lemma MirrorsRemove(ts: seq<string>, slugs: seq<string>, t: string)
    requires KeyedBy(ts, slugs) && Distinct(slugs) && t != "" && Slug(t) in slugs
    ensures var k := IndexOf(slugs, Slug(t));
            MapRemoved(Mirrors(ts), t) == Mirrors(RemoveAt(ts, k))
  {
    var ms := Mirrors(ts);
    MirrorsFind(ts, slugs, t);
    assert UniqueSlugs(ms) by {
      forall i, j | 0 <= i < j < |ms| ensures ms[i].slug != ms[j].slug {
        assert slugs[i] != slugs[j];
      }
    }
    MapRemovedSingle(ms, t);
  }

  /** Mirrors stay in step when the playlist with a slug is re-titled and
      `edit_map` re-titles its entry. */
  lemma MirrorsEdit(ts: seq<string>, slugs: seq<string>, t: string, n: string)
    requires KeyedBy(ts, slugs) && t != "" && Slug(t) in slugs && n != ""
    ensures var k := IndexOf(slugs, Slug(t));
            MapEdited(Mirrors(ts), t, Some(n)) == Mirrors(ts[k := n])
  {
    MirrorsFind(ts, slugs, t);
  }
}
