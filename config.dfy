/** A playlist's configuration: a master volume and an ordered list of tracks
    kept unique by title. It can be rebuilt from the raw track records read
    back from a playlist file, recovering each track's directory from its path. */
module Configs {
  import opened Utils
  import opened Tracks

  /** A track record as parsed from a playlist file; "" stands for a missing title or path. */
  datatype RawTrack = RawTrack(title: string, src: string, options: Arg<RawOptions>)

  /** The `volume` and `tracks` fields of an object handed to `new Config`. */
  datatype RawConfig = RawConfig(volume: Arg<real>, tracks: Option<seq<RawTrack>>)

  datatype ConfigValue = ConfigValue(volume: real, tracks: seq<TrackValue>)

  const DefaultConfig := ConfigValue(1.0, [])

  function TitlesOf(vs: seq<TrackValue>): (ts: seq<string>)
    ensures |ts| == |vs|
    ensures forall i :: 0 <= i < |vs| ==> ts[i] == vs[i].title
  {
    seq(|vs|, i requires 0 <= i < |vs| => vs[i].title)
  }

  /** The invariant of a track list: well-formed tracks, pairwise distinct titles. */
  predicate WellFormedTracks(vs: seq<TrackValue>) {
    (forall i :: 0 <= i < |vs| ==> WellFormed(vs[i])) && Distinct(TitlesOf(vs))
  }

  /** The list after `add_track(title, dir, raw)`: unchanged for an empty or
      known title (the first insertion wins), else one new track at the end. */
  function Added(vs: seq<TrackValue>, title: string, dir: string, raw: Arg<RawOptions>): seq<TrackValue> {
    if title == "" || title in TitlesOf(vs) then vs else vs + [Created(title, dir, raw)]
  }

  /** The list after `remove_track(title)`. */
  function Removed(vs: seq<TrackValue>, title: string): seq<TrackValue> {
    var k := IndexOf(TitlesOf(vs), title);
    if title == "" || k == |vs| then vs else RemoveAt(vs, k)
  }

  /** The list after `edit_track(title, dir, raw)`: a known track is re-titled
      with its own title and given the options; an unknown one is added. */
  function Edited(vs: seq<TrackValue>, title: string, dir: string, raw: Arg<RawOptions>): seq<TrackValue> {
    var k := IndexOf(TitlesOf(vs), title);
    if title == "" then vs
    else if k == |vs| then Added(vs, title, dir, raw)
    else vs[k := Retitled(vs[k], title).(options := Applied(vs[k].options, raw))]
  }

  /** The directory the constructor recovers from a stored path: the path
      without its last `|title| + 1` characters (JavaScript's `slice(0, -n)`). */
  function SrcDir(src: string, title: string): string {
    if src == "" then ""
    else if |src| <= |title| + 1 then ""
    else src[..|src| - |title| - 1]
  }

  /** What the constructor does with one raw record. The guard compares the
      title with the text "undefined", not its type. */
  function RebuildStep(vs: seq<TrackValue>, r: RawTrack): seq<TrackValue> {
    if r.title == "undefined" then vs else Added(vs, r.title, SrcDir(r.src, r.title), r.options)
  }

  /** The track list the constructor builds from raw records, in input order. */
  function Rebuilt(raws: seq<RawTrack>): seq<TrackValue> {
    if raws == [] then [] else RebuildStep(Rebuilt(raws[..|raws| - 1]), raws[|raws| - 1])
  }

  /** The value `new Config(raw.volume, raw.tracks)` builds. */
  function Built(raw: RawConfig): ConfigValue {
    ConfigValue(KeptVolume(raw.volume, 1.0), match raw.tracks case None => [] case Some(rs) => Rebuilt(rs))
  }

  function ValuesOf(ts: seq<Track>): (vs: seq<TrackValue>)
    reads ts
    ensures |vs| == |ts|
    ensures forall i :: 0 <= i < |ts| ==> vs[i] == ts[i].Value()
  {
    seq(|ts|, i requires 0 <= i < |ts| reads ts => ts[i].Value())
  }

  class Config {
    var volume: real
    var tracks: seq<Track>

    function Value(): ConfigValue
      reads this, tracks
    {
      ConfigValue(volume, ValuesOf(tracks))
    }

    ghost predicate Valid()
      reads this, tracks
    {
      0.0 <= volume <= 1.0 && WellFormedTracks(ValuesOf(tracks))
    }

    /** Defaults, then the volume if one was given, then the raw tracks in order. */
    constructor (vol: Arg<real>, raws: Option<seq<RawTrack>>)
      ensures Valid()
      ensures Value() == Built(RawConfig(vol, raws))
      ensures forall t :: t in tracks ==> fresh(t)
    {
      volume := 1.0;
      tracks := [];
      new;
      if !vol.Undefined? {
        SetVolume(vol);
      }
      if raws.Some? {
        AddRaws(raws.value);
      }
    }

    /** The constructor's loop over the raw records, from an empty list. */
    method AddRaws(rs: seq<RawTrack>)
      requires Valid() && tracks == []
      modifies this
      ensures Valid()
      ensures volume == old(volume)
      ensures ValuesOf(tracks) == Rebuilt(rs)
      ensures forall t :: t in tracks ==> fresh(t)
    {
      var i := 0;
      while i < |rs|
        invariant 0 <= i <= |rs|
        invariant Valid()
        invariant volume == old(volume)
        invariant ValuesOf(tracks) == Rebuilt(rs[..i])
        invariant forall t :: t in tracks ==> fresh(t)
      {
        assert rs[..i + 1][..i] == rs[..i];
        assert Rebuilt(rs[..i + 1]) == RebuildStep(Rebuilt(rs[..i]), rs[i]);
        AddRaw(rs[i]);
        i := i + 1;
      }
      assert rs[..|rs|] == rs;
    }

    /** One record of the constructor's loop: a record titled "undefined"
        is skipped, any other goes through `add_track`. */
    method AddRaw(r: RawTrack)
      requires Valid()
      modifies this
      ensures Valid()
      ensures volume == old(volume)
      ensures ValuesOf(tracks) == RebuildStep(old(ValuesOf(tracks)), r)
      ensures forall t :: t in tracks ==> t in old(tracks) || fresh(t)
    {
      if r.title != "undefined" {
        var dir := "";
        if r.src != "" {
          dir := SrcDir(r.src, r.title);
        }
        AddTrack(r.title, dir, r.options);
      }
    }

    method SetVolume(a: Arg<real>)
      modifies this
      ensures volume == KeptVolume(a, old(volume))
      ensures tracks == old(tracks)
    {
      if !AcceptsVolume(a) {
        return;
      }
      volume := a.v;
    }

    /** `add_track`; the caller supplies the directory (there is no global fallback). */
    method AddTrack(title: string, dir: string, raw: Arg<RawOptions>)
      requires Valid()
      modifies this
      ensures Valid()
      ensures volume == old(volume)
      ensures ValuesOf(tracks) == Added(old(ValuesOf(tracks)), title, dir, raw)
      ensures tracks == old(tracks) || (|tracks| == |old(tracks)| + 1
                && tracks[..|old(tracks)|] == old(tracks) && fresh(tracks[|old(tracks)|]))
    {
      if title == "" {
        return;
      }
      var found := GetTrack(title);
      if found == null {
        ghost var before := ValuesOf(tracks);
        var track := new Track(title, dir, raw);
        tracks := tracks + [track];
        assert ValuesOf(tracks) == before + [Created(title, dir, raw)];
        AddedWellFormed(before, title, dir, raw);
      }
    }

    /** `remove_track`: deletes the matching slot and compacts inside the scan. */
    method RemoveTrack(title: string)
      requires Valid()
      modifies this
      ensures Valid()
      ensures volume == old(volume)
      ensures ValuesOf(tracks) == Removed(old(ValuesOf(tracks)), title)
    {
      if title == "" {
        return;
      }
      var found := GetTrack(title);
      if found == null {
        return;
      }
      ghost var vs := ValuesOf(tracks);
      ghost var k := IndexOf(TitlesOf(vs), title);
      forall j | 0 <= j < |tracks| && j != k
        ensures tracks[j].title != title
      {
        assert TitlesOf(vs)[j] != TitlesOf(vs)[k];
      }
      DropTitled(title, k);
      assert ValuesOf(tracks) == RemoveAt(vs, k);
      RemovedWellFormed(vs, title);
    }

    /** The scan of `remove_track` when exactly the `k`-th track has the
        title: that slot is deleted and compacted, and the track that moves
        into it is skipped without loss. */
    method DropTitled(title: string, ghost k: nat)
      requires k < |tracks| && tracks[k].title == title
      requires forall j :: 0 <= j < |tracks| && j != k ==> tracks[j].title != title
      modifies this
      ensures tracks == RemoveAt(old(tracks), k) && volume == old(volume)
    {
      ghost var start := tracks;
      var i := 0;
      while i < |tracks|
        invariant i <= k ==> tracks == start
        invariant k < i ==> tracks == RemoveAt(start, k) && i <= |tracks| + 1
        invariant 0 <= i <= |start|
        invariant volume == old(volume)
      {
        if title == tracks[i].title {
          tracks := RemoveAt(tracks, i);
        }
        i := i + 1;
      }
    }

    /** `edit_track`: a known track keeps its title, path and place and only
        takes the options; an unknown title is added. */
    method EditTrack(title: string, dir: string, raw: Arg<RawOptions>)
      requires Valid()
      modifies this, tracks
      ensures Valid()
      ensures volume == old(volume)
      ensures ValuesOf(tracks) == Edited(old(ValuesOf(tracks)), title, dir, raw)
    {
      if title == "" {
        return;
      }
      var found := GetTrack(title);
      if found == null {
        AddTrack(title, dir, raw);
      } else {
        ghost var vs := ValuesOf(tracks);
        UpdateAt(found, IndexOf(TitlesOf(vs), title), title, raw);
        EditedWellFormed(vs, title, dir, raw);
      }
    }

    /** The known-track branch of `edit_track`: the `k`-th track re-titled and
        given the options, every other track untouched. */
    method UpdateAt(found: Track, ghost k: nat, title: string, raw: Arg<RawOptions>)
      requires Valid() && k < |tracks| && found == tracks[k]
      modifies found
      ensures ValuesOf(tracks) == old(ValuesOf(tracks))[k := Retitled(old(found.Value()), title)
                                      .(options := Applied(old(found.options), raw))]
    {
      ghost var vs := ValuesOf(tracks);
      DistinctTracks();
      found.SetTitle(title);
      found.SetOptions(raw);
      assert ValuesOf(tracks) == vs[k := Retitled(vs[k], title).(options := Applied(vs[k].options, raw))];
    }

    /** `get_track`: the track whose title is exactly `title`, or null. */
    method GetTrack(title: string) returns (found: Track?)
      ensures found == null <==> title == "" || title !in TitlesOf(ValuesOf(tracks))
      ensures found != null ==> found == tracks[IndexOf(TitlesOf(ValuesOf(tracks)), title)]
    {
      if title == "" {
        return null;
      }
      ghost var ts := TitlesOf(ValuesOf(tracks));
      var i := 0;
      while i < |tracks|
        invariant 0 <= i <= |tracks| == |ts|
        invariant forall j :: 0 <= j < i ==> ts[j] != title
      {
        if title == tracks[i].title {
          assert ts[i] == title && IndexOf(ts, title) == i;
          return tracks[i];
        }
        i := i + 1;
      }
      assert title !in ts;
      return null;
    }

    /** Distinct titles make distinct objects. */
    lemma DistinctTracks()
      requires Valid()
      ensures forall i, j :: 0 <= i < j < |tracks| ==> tracks[i] != tracks[j]
    {
      forall i, j | 0 <= i < j < |tracks|
        ensures tracks[i] != tracks[j]
      {
        assert TitlesOf(ValuesOf(tracks))[i] != TitlesOf(ValuesOf(tracks))[j];
      }
    }
  }

  /** `add_track` keeps titles unique and tracks well-formed. */
  lemma AddedWellFormed(vs: seq<TrackValue>, title: string, dir: string, raw: Arg<RawOptions>)
    requires WellFormedTracks(vs)
    ensures WellFormedTracks(Added(vs, title, dir, raw))
  {
    if title != "" && title !in TitlesOf(vs) {
      var r := Added(vs, title, dir, raw);
      assert TitlesOf(r) == TitlesOf(vs) + [title];
    }
  }

  /** `remove_track` keeps titles unique and tracks well-formed. */
  lemma RemovedWellFormed(vs: seq<TrackValue>, title: string)
    requires WellFormedTracks(vs)
    ensures WellFormedTracks(Removed(vs, title))
  {
    var k := IndexOf(TitlesOf(vs), title);
    if title != "" && k < |vs| {
      var r := RemoveAt(vs, k);
      forall i, j | 0 <= i < j < |r|
        ensures TitlesOf(r)[i] != TitlesOf(r)[j]
      {
        var i' := if i < k then i else i + 1;
        var j' := if j < k then j else j + 1;
        assert TitlesOf(vs)[i'] != TitlesOf(vs)[j'];
      }
    }
  }

  /** `edit_track` keeps titles unique and tracks well-formed. */
  lemma EditedWellFormed(vs: seq<TrackValue>, title: string, dir: string, raw: Arg<RawOptions>)
    requires WellFormedTracks(vs)
    ensures WellFormedTracks(Edited(vs, title, dir, raw))
  {
    var k := IndexOf(TitlesOf(vs), title);
    if title != "" && k == |vs| {
      AddedWellFormed(vs, title, dir, raw);
    } else if title != "" {
      var r := Edited(vs, title, dir, raw);
      assert TitlesOf(r) == TitlesOf(vs);
    }
  }

  /** A removed title is gone and every other title stays. */
  lemma RemovedTitles(vs: seq<TrackValue>, title: string)
    requires WellFormedTracks(vs)
    ensures title != "" ==> title !in TitlesOf(Removed(vs, title))
    ensures forall u :: u != title ==> (u in TitlesOf(Removed(vs, title)) <==> u in TitlesOf(vs))
  {
    var k := IndexOf(TitlesOf(vs), title);
    if title != "" && k < |vs| {
      var r := RemoveAt(vs, k);
      assert TitlesOf(r) == TitlesOf(vs)[..k] + TitlesOf(vs)[k + 1..];
      forall j | 0 <= j < |r| ensures TitlesOf(r)[j] != title {
        var j' := if j < k then j else j + 1;
        assert TitlesOf(vs)[j'] != TitlesOf(vs)[k];
      }
    }
  }

  /** `edit_track` on a known title keeps that track's title, type, path and
      place, applies the options, and touches no other track. */
  lemma EditedKeepsTrack(vs: seq<TrackValue>, title: string, dir: string, raw: Arg<RawOptions>)
    requires WellFormedTracks(vs)
    requires title in TitlesOf(vs)
    ensures var k := IndexOf(TitlesOf(vs), title);
            var r := Edited(vs, title, dir, raw);
            |r| == |vs| && r[k] == vs[k].(options := Applied(vs[k].options, raw))
            && forall j :: 0 <= j < |vs| && j != k ==> r[j] == vs[j]
  {
    var k := IndexOf(TitlesOf(vs), title);
    assert WellFormed(vs[k]);
  }

  /** `edit_track` never renames: the titles after an edit are the titles
      after adding the same title. */
  lemma EditNeverRenames(vs: seq<TrackValue>, title: string, dir: string, raw: Arg<RawOptions>)
    ensures TitlesOf(Edited(vs, title, dir, raw)) == TitlesOf(Added(vs, title, dir, raw))
  {
    var k := IndexOf(TitlesOf(vs), title);
    if title != "" && k < |vs| {
      assert TitlesOf(Edited(vs, title, dir, raw)) == TitlesOf(vs);
    }
  }

  /** A stored path the constructor can take apart again: empty, or ending
      in "/" and the title with a non-empty directory before it. */
  predicate SrcRestorable(src: string, title: string) {
    src == "" || (|src| > |title| + 1 && src[|src| - |title| - 1..] == "/" + title)
  }

  /** Slicing a restorable path and joining it again gives the path back. */
  lemma SrcRoundTrip(src: string, title: string)
    requires SrcRestorable(src, title)
    ensures SrcFor(SrcDir(src, title), title) == src
  {
    if src != "" {
      var dir := src[..|src| - |title| - 1];
      assert src == dir + src[|src| - |title| - 1..];
    }
  }

  /** A path `set_src` builds from a non-empty directory is restorable, and
      slicing it recovers the directory. */
  lemma DirRoundTrip(dir: string, title: string)
    requires dir != ""
    ensures SrcRestorable(SrcFor(dir, title), title)
    ensures SrcDir(SrcFor(dir, title), title) == dir
  {
    var src := SrcFor(dir, title);
    assert src[..|dir|] == dir;
    assert src[|dir|..] == "/" + title;
  }

  /** Titles the constructor accepts from raw records. */
  function AcceptedTitles(raws: seq<RawTrack>): set<string> {
    set i | 0 <= i < |raws| && raws[i].title != "" && raws[i].title != "undefined" :: raws[i].title
  }

  /** A rebuilt list is well-formed, with unique titles. */
  lemma {:induction false} RebuiltWellFormed(raws: seq<RawTrack>)
    ensures WellFormedTracks(Rebuilt(raws))
  {
    if raws != [] {
      var init := raws[..|raws| - 1];
      var r := raws[|raws| - 1];
      RebuiltWellFormed(init);
      AddedWellFormed(Rebuilt(init), r.title, SrcDir(r.src, r.title), r.options);
    }
  }

  /** The rebuilt list holds exactly the accepted titles. */
  lemma {:induction false} RebuiltTitles(raws: seq<RawTrack>)
    ensures forall t :: t in TitlesOf(Rebuilt(raws)) <==> t in AcceptedTitles(raws)
  {
    if raws != [] {
      var init := raws[..|raws| - 1];
      var r := raws[|raws| - 1];
      RebuiltTitles(init);
      var vs := Rebuilt(init);
      if r.title != "undefined" && r.title != "" && r.title !in TitlesOf(vs) {
        assert TitlesOf(vs + [Created(r.title, SrcDir(r.src, r.title), r.options)]) == TitlesOf(vs) + [r.title];
      }
      assert AcceptedTitles(raws) == AcceptedTitles(init) + (if r.title != "" && r.title != "undefined" then {r.title} else {}) by {
        forall t | t in AcceptedTitles(raws) ensures t in AcceptedTitles(init) || t == r.title {
          var i :| 0 <= i < |raws| && raws[i].title != "" && raws[i].title != "undefined" && raws[i].title == t;
          if i < |init| {
            assert init[i] == raws[i];
          }
        }
        forall t | t in AcceptedTitles(init) ensures t in AcceptedTitles(raws) {
          var i :| 0 <= i < |init| && init[i].title != "" && init[i].title != "undefined" && init[i].title == t;
          assert raws[i] == init[i];
        }
      }
    }
  }

  /** Records are added in input order: the list rebuilt from a prefix of the
      records is a prefix of the list rebuilt from all of them. */
  lemma {:induction false} RebuiltOrder(raws: seq<RawTrack>, n: nat)
    requires n <= |raws|
    ensures Rebuilt(raws[..n]) <= Rebuilt(raws)
  {
    if n < |raws| {
      var init := raws[..|raws| - 1];
      assert init[..n] == raws[..n];
      RebuiltOrder(init, n);
    } else {
      assert raws[..n] == raws;
    }
  }

  /** The first record with a given accepted title is the one that is kept:
      later duplicates are dropped. */
  lemma {:induction false} RebuiltFirstWins(raws: seq<RawTrack>, i: nat)
    requires i < |raws|
    requires raws[i].title != "" && raws[i].title != "undefined"
    requires forall j :: 0 <= j < i ==> raws[j].title != raws[i].title
    ensures var vs := Rebuilt(raws);
            var k := IndexOf(TitlesOf(vs), raws[i].title);
            k < |vs| && vs[k] == Created(raws[i].title, SrcDir(raws[i].src, raws[i].title), raws[i].options)
  {
    var init := raws[..|raws| - 1];
    var r := raws[|raws| - 1];
    var vs := Rebuilt(init);
    var t := raws[i].title;
    assert Rebuilt(raws) == RebuildStep(vs, r);
    if i == |raws| - 1 {
      RebuiltTitles(init);
      forall j | 0 <= j < |init| ensures init[j].title != t {
        assert init[j] == raws[j];
      }
      RebuildStepNew(vs, r);
    } else {
      assert init[i] == raws[i];
      forall j | 0 <= j < i ensures init[j].title != t {
        assert init[j] == raws[j];
      }
      RebuiltFirstWins(init, i);
      var k := IndexOf(TitlesOf(vs), t);
      assert k < |vs| && TitlesOf(vs)[k] == t;
      RebuildStepKeeps(vs, r, t);
      assert Rebuilt(raws)[k] == vs[k];
    }
  }

  /** A record with a new accepted title is appended at the end. */
  lemma RebuildStepNew(vs: seq<TrackValue>, r: RawTrack)
    requires r.title != "" && r.title != "undefined" && r.title !in TitlesOf(vs)
    ensures var ws := RebuildStep(vs, r);
            IndexOf(TitlesOf(ws), r.title) == |vs| < |ws|
            && ws[|vs|] == Created(r.title, SrcDir(r.src, r.title), r.options)
  {
    var c := Created(r.title, SrcDir(r.src, r.title), r.options);
    assert TitlesOf(vs + [c]) == TitlesOf(vs) + [r.title];
    assert TitlesOf(vs + [c])[|vs|] == r.title;
  }

  /** A record never moves or replaces a track already in the list. */
  lemma RebuildStepKeeps(vs: seq<TrackValue>, r: RawTrack, t: string)
    requires t in TitlesOf(vs)
    ensures var ws := RebuildStep(vs, r);
            IndexOf(TitlesOf(ws), t) == IndexOf(TitlesOf(vs), t) && vs <= ws
  {
    if RebuildStep(vs, r) != vs {
      var c := Created(r.title, SrcDir(r.src, r.title), r.options);
      assert TitlesOf(vs + [c]) == TitlesOf(vs) + [r.title];
      IndexOfAppend(TitlesOf(vs), t, r.title);
    }
  }

  /** The raw records a stored list of tracks reads back as. */
  function RawsOf(vs: seq<TrackValue>): (rs: seq<RawTrack>)
    ensures |rs| == |vs|
    ensures forall i :: 0 <= i < |vs| ==> rs[i] == RawTrack(vs[i].title, vs[i].src, Val(RawOf(vs[i].options)))
  {
    seq(|vs|, i requires 0 <= i < |vs| => RawTrack(vs[i].title, vs[i].src, Val(RawOf(vs[i].options))))
  }

  /** The raw configuration a stored configuration reads back as. */
  function StoredRaw(c: ConfigValue): RawConfig {
    RawConfig(Val(c.volume), Some(RawsOf(c.tracks)))
  }

  /** A configuration that survives being written and read back: a valid
      volume, well-formed unique tracks, no track titled "undefined", and
      restorable paths. */
  predicate Storable(c: ConfigValue) {
    0.0 <= c.volume <= 1.0 && WellFormedTracks(c.tracks)
    && forall i :: 0 <= i < |c.tracks| ==> c.tracks[i].title != "undefined" && SrcRestorable(c.tracks[i].src, c.tracks[i].title)
  }

  /** A stored track read back and re-created is the same track. */
  lemma CreatedFromStored(v: TrackValue)
    requires WellFormed(v) && SrcRestorable(v.src, v.title)
    ensures Created(v.title, SrcDir(v.src, v.title), Val(RawOf(v.options))) == v
  {
    SrcRoundTrip(v.src, v.title);
    AppliedRawOf(v.options);
  }

  /** Dropping the last track keeps a list storable. */
  lemma StorablePrefix(vs: seq<TrackValue>)
    requires vs != [] && Storable(ConfigValue(1.0, vs))
    ensures Storable(ConfigValue(1.0, vs[..|vs| - 1]))
    ensures vs[|vs| - 1].title !in TitlesOf(vs[..|vs| - 1])
  {
    var init := vs[..|vs| - 1];
    forall i, j | 0 <= i < j < |init| ensures TitlesOf(init)[i] != TitlesOf(init)[j] {
      assert TitlesOf(vs)[i] != TitlesOf(vs)[j];
    }
    forall j | 0 <= j < |init| ensures TitlesOf(init)[j] != vs[|vs| - 1].title {
      assert TitlesOf(vs)[j] != TitlesOf(vs)[|vs| - 1];
    }
  }

  /** Rebuilding the records of a storable list gives the list back. */
  lemma {:induction false} RebuiltRawsOf(vs: seq<TrackValue>)
    requires Storable(ConfigValue(1.0, vs))
    ensures Rebuilt(RawsOf(vs)) == vs
  {
    if vs != [] {
      var init := vs[..|vs| - 1];
      var v := vs[|vs| - 1];
      var rs := RawsOf(vs);
      assert rs[..|rs| - 1] == RawsOf(init);
      StorablePrefix(vs);
      RebuiltRawsOf(init);
      CreatedFromStored(v);
      assert vs == init + [v];
    }
  }

  /** Round trip: a storable configuration written out and rebuilt by the
      constructor is the same configuration. */
  lemma StoredRoundTrip(c: ConfigValue)
    requires Storable(c)
    ensures Built(StoredRaw(c)) == c
  {
    RebuiltRawsOf(c.tracks);
  }
}
