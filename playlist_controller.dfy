/** The playlist controller: it owns the index entries, the playlists, the
    list of track files found in the tracks directory, and that directory.
    Saving and removing playlist files go through a store of files keyed by
    slug, handed in and returned; the index file and the directory listing
    are outside the model, so the listing comes in as a parameter. */
module Controller {
  import opened Utils
  import opened Configs
  import opened PlaylistMaps
  import opened Playlists
  import opened Sweeps
  import opened TitleOrder
  import opened MapIndex

  /** An entry of the track-file list: the file name and its audio type ("" when none). */
  datatype TrackFile = TrackFile(name: string, fileType: string)

  /** The `new_data` object handed to `edit_playlist`: a new title, a new
      config, and the `volume` and `tracks` fields that are read when the
      whole object is used as a config. */
  datatype EditData = EditData(title: Arg<string>, config: Arg<RawConfig>, volume: Arg<real>, tracks: Option<seq<RawTrack>>)

  function MapValuesOf(ms: seq<PlaylistMap>): (r: seq<MapValue>)
    reads ms
    ensures |r| == |ms|
    ensures forall i :: 0 <= i < |ms| ==> r[i] == ms[i].Value()
  {
    seq(|ms|, i requires 0 <= i < |ms| reads ms => ms[i].Value())
  }

  function SlugsOf(ps: seq<Playlist>): (r: seq<string>)
    reads ps
    ensures |r| == |ps|
    ensures forall i :: 0 <= i < |ps| ==> r[i] == ps[i].slug
  {
    seq(|ps|, i requires 0 <= i < |ps| reads ps => ps[i].slug)
  }

  function TitlesOfPlaylists(ps: seq<Playlist>): (r: seq<string>)
    reads ps
    ensures |r| == |ps|
    ensures forall i :: 0 <= i < |ps| ==> r[i] == ps[i].title
  {
    seq(|ps|, i requires 0 <= i < |ps| reads ps => ps[i].title)
  }

  /** A file name `read_tracks` drops: one that is not of a supported audio type. */
  predicate Unplayable(name: string) {
    ValidFileType(name).None?
  }

  /** The records `read_tracks` builds for the files it kept. */
  function TrackFilesOf(names: seq<string>): (r: seq<TrackFile>)
    ensures |r| == |names|
    ensures forall i :: 0 <= i < |names| ==> r[i] == TrackFile(names[i], ValidFileType(names[i]).GetOr(""))
  {
    seq(|names|, i requires 0 <= i < |names| => TrackFile(names[i], ValidFileType(names[i]).GetOr("")))
  }

  /** `utils.eq(track_files, files)`: it compares each record with a file
      name, which never matches, so it holds only for two empty lists. */
  predicate SameListing(current: seq<TrackFile>, names: seq<string>) {
    |current| == |names| && |names| == 0
  }

  /** The config `edit_playlist` hands to `add_playlist` for an unknown
      title: the whole `new_data` object, so its own `volume` and `tracks`
      fields, not its `config` field; nothing when it is missing. */
  function ConfigArgOf(data: Option<EditData>): Arg<RawConfig> {
    match data
    case None => Null
    case Some(d) => Val(RawConfig(d.volume, d.tracks))
  }

  /** The new title is already the slug of some playlist. */
  predicate Taken(d: EditData, slugs: seq<string>) {
    d.title.Val? && d.title.v != "" && Slug(d.title.v) in slugs
  }

  /** The title `edit_playlist` renames to, or "" when it renames nothing. */
  function NewTitle(d: EditData, slugs: seq<string>): string {
    if d.title.Val? && d.title.v != "" && !Taken(d, slugs) then d.title.v else ""
  }

  /** `edit_playlist` saves: a config was given, or the title step ran
      without finding the new title taken. */
  predicate Changed(d: EditData, slugs: seq<string>) {
    !d.config.Undefined? || d.title.Null? || NewTitle(d, slugs) != ""
  }

  /** The playlist after the config and title steps of `edit_playlist`. */
  function EditedValue(v: PlaylistValue, d: EditData, slugs: seq<string>): PlaylistValue {
    Renamed(v.(config := Reconfigured(v.config, d.config)), NewTitle(d, slugs))
  }

  /** `read_tracks` misses a file: of two adjacent unplayable files the second
      stays in the list, and is recorded with the empty type. */
  lemma ReadTracksKeepsSecondUnplayable(a: string, b: string, rest: seq<string>)
    requires Unplayable(a) && Unplayable(b)
    ensures var r := TrackFilesOf(Sweep([a, b] + rest, Unplayable));
            |r| >= 1 && r[0] == TrackFile(b, "")
  {
  }

  /** The index entries are distinct objects, each consistent. */
  ghost predicate MapsOk(ms: seq<PlaylistMap>)
    reads ms
  {
    Distinct(ms) && AllConsistent(MapValuesOf(ms))
  }

  /** The playlists are distinct objects, keyed by their titles, with
      pairwise distinct slugs. */
  ghost predicate PlaylistsOk(ps: seq<Playlist>)
    reads ps
  {
    Distinct(ps) && KeyedBy(TitlesOfPlaylists(ps), SlugsOf(ps)) && Distinct(SlugsOf(ps))
  }

  class PlaylistController {
    var maps: seq<PlaylistMap>
    var playlists: seq<Playlist>
    var trackFiles: seq<TrackFile>
    var tracksDir: string

    function MapValues(): seq<MapValue>
      reads this, maps
    {
      MapValuesOf(maps)
    }

    function Slugs(): seq<string>
      reads this, playlists
    {
      SlugsOf(playlists)
    }

    function Titles(): seq<string>
      reads this, playlists
    {
      TitlesOfPlaylists(playlists)
    }

    /** What every operation keeps: distinct objects, consistent entries, and
        playlists keyed by their titles with pairwise distinct slugs. */
    ghost predicate Valid()
      reads this, maps, playlists
    {
      MapsValid() && PlaylistsValid()
    }

    ghost predicate MapsValid()
      reads this, maps
    {
      MapsOk(maps)
    }

    ghost predicate PlaylistsValid()
      reads this, playlists
    {
      PlaylistsOk(playlists)
    }

    /** The index mirrors the playlists, entry by entry. */
    ghost predicate Aligned()
      reads this, maps, playlists
    {
      MapValues() == Mirrors(Titles())
    }

    /** `tracksDir` is the default directory the constructor resolves. */
    constructor (defaultDir: string)
      ensures Valid() && Aligned()
      ensures maps == [] && playlists == [] && trackFiles == [] && tracksDir == defaultDir
    {
      maps := [];
      playlists := [];
      trackFiles := [];
      tracksDir := defaultDir;
    }

    /** `set_tracks_dir`; `None` stands for an argument that is not a string. */
    method SetTracksDir(dir: Option<string>) returns (accepted: bool)
      modifies this
      ensures accepted <==> dir.Some? && dir.value != old(tracksDir)
      ensures tracksDir == if accepted then dir.value else old(tracksDir)
      ensures maps == old(maps) && playlists == old(playlists) && trackFiles == old(trackFiles)
    {
      if dir.None? || dir.value == tracksDir {
        return false;
      }
      tracksDir := dir.value;
      return true;
    }

    /** `get_map`: the first entry with the slug of `t`, or null. */
    method GetMap(t: string) returns (m: PlaylistMap?)
      ensures m == null <==> !HasMap(MapValues(), t)
      ensures m != null ==> m == maps[FindMap(MapValues(), t)]
    {
      if t == "" {
        return null;
      }
      var i := 0;
      while i < |maps|
        invariant 0 <= i <= |maps|
        invariant forall j :: 0 <= j < i ==> MapSlugs(MapValues())[j] != Some(Slug(t))
      {
        if maps[i].slug == Some(Slug(t)) {
          return maps[i];
        }
        i := i + 1;
      }
      return null;
    }

    /** `get_playlist`: the first playlist with the slug of `t`, or null. */
    method GetPlaylist(t: string) returns (p: Playlist?)
      ensures p == null <==> t == "" || Slug(t) !in Slugs()
      ensures p != null ==> p == playlists[IndexOf(Slugs(), Slug(t))]
    {
      if t == "" {
        return null;
      }
      var i := 0;
      while i < |playlists|
        invariant 0 <= i <= |playlists|
        invariant forall j :: 0 <= j < i ==> Slugs()[j] != Slug(t)
      {
        if Slug(t) == playlists[i].slug {
          return playlists[i];
        }
        i := i + 1;
      }
      return null;
    }

    /** One title of `add_map`. */
    method AddOneMap(t: string)
      requires MapsValid()
      modifies this
      ensures MapsValid()
      ensures MapValues() == MapAddedOne(old(MapValues()), t)
      ensures playlists == old(playlists) && trackFiles == old(trackFiles) && tracksDir == old(tracksDir)
    {
      var found := GetMap(t);
      if found == null {
        var m := new PlaylistMap(t);
        ghost var before := MapValues();
        maps := maps + [m];
        assert MapValues() == before + [Titled(Unset, t)];
        NewEntry(t);
      }
    }

    /** `add_map` with a single title or an array of titles. */
    method AddMap(a: MapArg)
      requires MapsValid()
      modifies this
      ensures MapsValid()
      ensures MapValues() == MapsAdded(old(MapValues()), a)
      ensures playlists == old(playlists) && trackFiles == old(trackFiles) && tracksDir == old(tracksDir)
    {
      match a
      case One(t) =>
        if t == "" {
          return;
        }
        AddOneMap(t);
      case Many(ts) =>
        var i := 0;
        while i < |ts|
          invariant 0 <= i <= |ts|
          invariant MapsValid()
          invariant MapValues() == MapsAddedAll(old(MapValues()), ts[..i])
          invariant playlists == old(playlists) && trackFiles == old(trackFiles) && tracksDir == old(tracksDir)
        {
          assert ts[..i + 1][..i] == ts[..i];
          AddOneMap(ts[i]);
          i := i + 1;
        }
        assert ts[..|ts|] == ts;
    }

    /** `remove_map`: the delete-compact-advance scan over the entries with
        the slug of `t`. */
    method RemoveMap(t: string)
      requires MapsValid()
      modifies this
      ensures MapsValid()
      ensures MapValues() == MapRemoved(old(MapValues()), t)
      ensures playlists == old(playlists) && trackFiles == old(trackFiles) && tracksDir == old(tracksDir)
    {
      if t == "" {
        return;
      }
      var found := GetMap(t);
      if found == null {
        return;
      }
      ghost var start := MapValues();
      assert MapValues()[0..] == start;
      var i := 0;
      while i < |maps|
        invariant i <= |maps| + 1
        invariant i <= |maps| ==> MapValues()[..i] + Sweep(MapValues()[i..], SlugIs(t)) == Sweep(start, SlugIs(t))
        invariant i == |maps| + 1 ==> MapValues() == Sweep(start, SlugIs(t))
        invariant MapsValid()
        invariant playlists == old(playlists) && trackFiles == old(trackFiles) && tracksDir == old(tracksDir)
      {
        RemoveMapStep(t, i, start);
        i := i + 1;
      }
      if i == |maps| {
        assert MapValues()[..i] == MapValues();
      }
    }

    /** One turn of the `remove_map` loop at position `i`: an entry with the
        slug is deleted and the next one moves into its slot, which the loop
        then passes over. */
    method RemoveMapStep(t: string, i: nat, ghost start: seq<MapValue>)
      requires MapsValid() && i < |maps|
      requires MapValues()[..i] + Sweep(MapValues()[i..], SlugIs(t)) == Sweep(start, SlugIs(t))
      modifies this
      ensures MapsValid()
      ensures i + 1 <= |maps| ==> MapValues()[..i + 1] + Sweep(MapValues()[i + 1..], SlugIs(t)) == Sweep(start, SlugIs(t))
      ensures i + 1 == |maps| + 1 ==> MapValues() == Sweep(start, SlugIs(t))
      ensures i + 1 <= |maps| + 1 && |maps| <= old(|maps|)
      ensures playlists == old(playlists) && trackFiles == old(trackFiles) && tracksDir == old(tracksDir)
    {
      ghost var vs := MapValues();
      if Some(Slug(t)) == maps[i].slug {
        DeleteMapAt(i);
        SweepDeleteStep(vs, i, SlugIs(t));
      } else {
        SweepKeepStep(vs, i, SlugIs(t));
      }
    }

    /** Deletes the entry at position `i`, moving the later ones down. */
    method DeleteMapAt(i: nat)
      requires MapsValid() && i < |maps|
      modifies this
      ensures MapsValid()
      ensures maps == RemoveAt(old(maps), i) && MapValues() == RemoveAt(old(MapValues()), i)
      ensures playlists == old(playlists) && trackFiles == old(trackFiles) && tracksDir == old(tracksDir)
    {
      DistinctRemoveAt(maps, i);
      maps := RemoveAt(maps, i);
      assert MapValues() == RemoveAt(old(MapValues()), i);
    }

    /** `edit_map(t, nt)`; `None` stands for a missing new title, and an empty
        one also stands for `null`. */
    method EditMap(t: string, nt: Option<string>)
      requires MapsValid()
      modifies this, maps
      ensures MapsValid()
      ensures MapValues() == MapEdited(old(MapValues()), t, nt)
      ensures playlists == old(playlists) && trackFiles == old(trackFiles) && tracksDir == old(tracksDir)
    {
      if t == "" {
        return;
      }
      var found := GetMap(t);
      if found == null {
        var title := if nt.Some? then nt.value else t;
        AddMap(One(title));
      } else {
        SetMapTitle(found, FindMap(MapValues(), t), nt.GetOr(""));
      }
    }

    /** `set_title` on the entry at position `k`. */
    method SetMapTitle(m: PlaylistMap, ghost k: nat, t: string)
      requires MapsValid() && k < |maps| && maps[k] == m
      modifies m
      ensures MapsValid()
      ensures MapValues() == old(MapValues())[k := Titled(old(MapValues())[k], t)]
    {
      ghost var vs := MapValues();
      m.SetTitle(t);
      assert MapValues() == vs[k := Titled(vs[k], t)];
      TitledConsistent(vs[k], t);
    }

    /** `get_titles`: the titles of the given entries, or of the controller's
        own, in the order `sort()` puts them. */
    method GetTitles(given: Option<seq<PlaylistMap>>) returns (titles: seq<Option<string>>)
      ensures var ms := if given.Some? then given.value else maps;
              titles == Sort(MapTitles(MapValuesOf(ms)))
      ensures var ms := if given.Some? then given.value else maps;
              Sorted(titles) && multiset(titles) == multiset(MapTitles(MapValuesOf(ms)))
    {
      var ms := if given.Some? then given.value else maps;
      var all: seq<Option<string>> := [];
      var i := 0;
      while i < |ms|
        invariant 0 <= i <= |ms|
        invariant all == MapTitles(MapValuesOf(ms))[..i]
      {
        all := all + [ms[i].title];
        i := i + 1;
      }
      assert all == MapTitles(MapValuesOf(ms));
      titles := Sort(all);
    }

    /** The filter loop of `read_tracks`: unplayable files are deleted in
        place, with the skip the scan makes after each deletion. */
    method FilterTrackFiles(files: seq<string>) returns (kept: seq<string>)
      ensures kept == Sweep(files, Unplayable)
    {
      kept := files;
      var i := 0;
      while i < |kept|
        invariant i <= |kept| + 1
        invariant i <= |kept| ==> kept[..i] + Sweep(kept[i..], Unplayable) == Sweep(files, Unplayable)
        invariant i == |kept| + 1 ==> kept == Sweep(files, Unplayable)
      {
        if ValidFileType(kept[i]).None? {
          SweepDeleteStep(kept, i, Unplayable);
          kept := RemoveAt(kept, i);
        } else {
          SweepKeepStep(kept, i, Unplayable);
        }
        i := i + 1;
      }
      if i == |kept| {
        assert kept[..i] == kept;
      }
    }

    /** `read_tracks` with the directory listing handed in (`None` when
        reading the directory failed). Returns whether the list was rebuilt
        and the listeners notified. */
    method ReadTracks(listing: Option<seq<string>>) returns (notified: bool)
      modifies this
      ensures listing.None? ==> !notified && trackFiles == old(trackFiles)
      ensures listing.Some? ==>
                var kept := Sweep(listing.value, Unplayable);
                (notified <==> !SameListing(old(trackFiles), kept))
                && trackFiles == if notified then TrackFilesOf(kept) else old(trackFiles)
      ensures maps == old(maps) && playlists == old(playlists) && tracksDir == old(tracksDir)
    {
      if listing.None? {
        return false;
      }
      var files := FilterTrackFiles(listing.value);
      if |trackFiles| == |files| && |files| == 0 {
        return false;
      }
      trackFiles := [];
      var x := 0;
      while x < |files|
        invariant 0 <= x <= |files|
        invariant trackFiles == TrackFilesOf(files[..x])
        invariant maps == old(maps) && playlists == old(playlists) && tracksDir == old(tracksDir)
      {
        var fileType := "";
        if ValidFileType(files[x]).Some? {
          fileType := ValidFileType(files[x]).value;
        }
        trackFiles := trackFiles + [TrackFile(files[x], fileType)];
        x := x + 1;
      }
      assert files[..|files|] == files;
      return true;
    }

    /** `add_playlist`. The save runs to completion before the entry is added,
        and the entry is added whatever the save reported. */
    method AddPlaylist(title: string, config: Arg<RawConfig>, store: Store, faults: set<IoStep>)
      returns (store': Store, callbacks: seq<Option<Error>>)
      requires Valid()
      modifies this
      ensures Valid()
      ensures old(Aligned()) ==> Aligned()
      ensures trackFiles == old(trackFiles) && tracksDir == old(tracksDir)
      ensures title == "" || Slug(title) in old(Slugs()) ==>
                playlists == old(playlists) && MapValues() == old(MapValues()) && store' == store
                && callbacks == (if title == "" then [] else [None])
      ensures title != "" && Slug(title) !in old(Slugs()) ==>
                var n := |old(playlists)|;
                var o := SaveStep(store, Constructed(title, config), faults);
                |playlists| == n + 1 && playlists[..n] == old(playlists) && fresh(playlists[n])
                && playlists[n].Value() == Constructed(title, config)
                && store' == o.store && callbacks == o.callbacks
                && MapValues() == MapsAdded(old(MapValues()), One(title))
    {
      if title == "" {
        return store, [];
      }
      var existing := GetPlaylist(title);
      if existing != null {
        return store, [None];
      }
      store', callbacks := CreatePlaylist(title, config, store, faults);
    }

    /** The part of `add_playlist` that runs for a title with a new slug. */
    method CreatePlaylist(title: string, config: Arg<RawConfig>, store: Store, faults: set<IoStep>)
      returns (store': Store, callbacks: seq<Option<Error>>)
      requires Valid() && title != "" && Slug(title) !in Slugs()
      modifies this
      ensures Valid()
      ensures old(Aligned()) ==> Aligned()
      ensures trackFiles == old(trackFiles) && tracksDir == old(tracksDir)
      ensures var n := |old(playlists)|;
              var o := SaveStep(store, Constructed(title, config), faults);
              |playlists| == n + 1 && playlists[..n] == old(playlists) && fresh(playlists[n])
              && playlists[n].Value() == Constructed(title, config)
              && store' == o.store && callbacks == o.callbacks
              && MapValues() == MapsAdded(old(MapValues()), One(title))
    {
      ghost var titles := Titles();
      ghost var mv := MapValues();
      var p;
      label creating:
      p, store', callbacks := NewSavedPlaylist(title, config, store, faults);
      assert unchanged@creating(maps);
      assert MapValues() == mv;
      ghost var titles' := Titles();
      label adding:
      AddMap(One(title));
      assert unchanged@adding(playlists) && unchanged@adding(p.config, p.config.tracks);
      assert p.Value() == Constructed(title, config);
      assert Titles() == titles' == titles + [title];
      if old(Aligned()) {
        MirrorsAdd(titles, old(Slugs()), title);
      }
    }

    /** Constructs, appends and saves a playlist for a title with a new slug. */
    method NewSavedPlaylist(title: string, config: Arg<RawConfig>, store: Store, faults: set<IoStep>)
      returns (p: Playlist, store': Store, callbacks: seq<Option<Error>>)
      requires PlaylistsValid() && title != "" && Slug(title) !in Slugs()
      modifies this
      ensures PlaylistsValid() && fresh(p)
      ensures playlists == old(playlists) + [p] && p.Value() == Constructed(title, config)
      ensures Slugs() == old(Slugs()) + [Slug(title)] && Titles() == old(Titles()) + [title]
      ensures var o := SaveStep(store, Constructed(title, config), faults);
              store' == o.store && callbacks == o.callbacks
      ensures maps == old(maps) && trackFiles == old(trackFiles) && tracksDir == old(tracksDir)
    {
      p := NewPlaylist(title, config);
      store', callbacks := SavePlaylist(p, |playlists| - 1, store, faults);
    }

    /** Constructs a playlist for a title with a new slug and appends it. */
    method NewPlaylist(title: string, config: Arg<RawConfig>) returns (p: Playlist)
      requires PlaylistsValid() && title != "" && Slug(title) !in Slugs()
      modifies this
      ensures PlaylistsValid() && fresh(p)
      ensures playlists == old(playlists) + [p] && p.Value() == Constructed(title, config)
      ensures Slugs() == old(Slugs()) + [Slug(title)] && Titles() == old(Titles()) + [title]
      ensures maps == old(maps) && trackFiles == old(trackFiles) && tracksDir == old(tracksDir)
    {
      var a := if config.Val? then config else Undefined;
      p := new Playlist(title, a);
      ConstructedKeyed(title, a);
      AppendPlaylist(p);
    }

    /** Appends a fresh playlist whose slug is new. */
    method AppendPlaylist(p: Playlist)
      requires PlaylistsValid() && p !in playlists
      requires p.title != "" && p.slug == Slug(p.title) && p.slug !in Slugs()
      modifies this
      ensures PlaylistsValid()
      ensures playlists == old(playlists) + [p]
      ensures Slugs() == old(Slugs()) + [p.slug] && Titles() == old(Titles()) + [p.title]
      ensures maps == old(maps) && trackFiles == old(trackFiles) && tracksDir == old(tracksDir)
    {
      playlists := playlists + [p];
      assert Slugs() == old(Slugs()) + [p.slug];
      assert Titles() == old(Titles()) + [p.title];
    }

    /** `save` on the playlist at position `k`: its title and slug stay, so
        the playlists stay keyed. */
    method SavePlaylist(p: Playlist, ghost k: nat, store: Store, faults: set<IoStep>)
      returns (store': Store, callbacks: seq<Option<Error>>)
      requires PlaylistsValid() && k < |playlists| && playlists[k] == p
      modifies p
      ensures PlaylistsValid()
      ensures Slugs() == old(Slugs()) && Titles() == old(Titles())
      ensures var o := SaveStep(store, old(p.Value()), faults);
              store' == o.store && callbacks == o.callbacks
              && p.Value() == old(p.Value()).(oldSlug := if o.renamed then "" else old(p.oldSlug))
      ensures old(p.oldSlug) == "" ==> p.Value() == old(p.Value())
      ensures MapValues() == old(MapValues()) && (old(MapsValid()) ==> MapsValid())
    {
      store', callbacks := p.Save(store, faults);
      assert Slugs() == old(Slugs());
      assert Titles() == old(Titles());
    }

    /** `remove_playlist`: the entry goes through `remove_map`, then the scan
        over the playlists removes each one with the slug and deletes its file.
        The deletion's callback ignores what it is handed and only saves the
        index, which is not part of this model; so the error is dropped. */
    method RemovePlaylist(title: string, store: Store, faults: set<IoStep>) returns (store': Store)
      requires Valid()
      modifies this
      ensures Valid()
      ensures old(Aligned()) ==> Aligned()
      ensures trackFiles == old(trackFiles) && tracksDir == old(tracksDir)
      ensures title == "" || Slug(title) !in old(Slugs()) ==>
                playlists == old(playlists) && MapValues() == old(MapValues()) && store' == store
      ensures title != "" && Slug(title) in old(Slugs()) ==>
                var k := IndexOf(old(Slugs()), Slug(title));
                playlists == RemoveAt(old(playlists), k)
                && MapValues() == MapRemoved(old(MapValues()), title)
                && store' == RemoveStep(store, Slug(title), faults).0
    {
      if title == "" {
        return store;
      }
      var found := GetPlaylist(title);
      if found == null {
        return store;
      }
      store' := RemoveKnown(title, store, faults);
    }

    /** `remove_playlist` for a title whose slug some playlist has. */
    method RemoveKnown(title: string, store: Store, faults: set<IoStep>) returns (store': Store)
      requires Valid() && title != "" && Slug(title) in Slugs()
      modifies this
      ensures Valid()
      ensures old(Aligned()) ==> Aligned()
      ensures var k := IndexOf(old(Slugs()), Slug(title));
              playlists == RemoveAt(old(playlists), k)
              && MapValues() == MapRemoved(old(MapValues()), title)
              && store' == RemoveStep(store, Slug(title), faults).0
      ensures trackFiles == old(trackFiles) && tracksDir == old(tracksDir)
    {
      ghost var titles := Titles();
      ghost var slugs := Slugs();
      ghost var aligned := Aligned();
      RemoveMap(title);
      assert unchanged(playlists);
      assert Slugs() == slugs && Titles() == titles;
      ghost var mv := MapValues();
      label dropping:
      store' := DropPlaylist(title, store, faults);
      assert unchanged@dropping(maps);
      assert MapValues() == mv;
      if aligned {
        MirrorsRemove(titles, slugs, title);
        assert Titles() == RemoveAt(titles, IndexOf(slugs, Slug(title)));
      }
    }

    /** The scan of `remove_playlist` over the playlists: the one playlist
        with the slug of `title` has its file removed and is deleted; the
        playlist that moves into its slot is skipped, which loses nothing
        because slugs are distinct. */
    method DropPlaylist(title: string, store: Store, faults: set<IoStep>) returns (store': Store)
      requires PlaylistsValid() && title != "" && Slug(title) in Slugs()
      modifies this
      ensures PlaylistsValid()
      ensures var k := IndexOf(old(Slugs()), Slug(title));
              playlists == RemoveAt(old(playlists), k)
              && Slugs() == RemoveAt(old(Slugs()), k) && Titles() == RemoveAt(old(Titles()), k)
              && store' == RemoveStep(store, Slug(title), faults).0
      ensures maps == old(maps) && trackFiles == old(trackFiles) && tracksDir == old(tracksDir)
    {
      ghost var start := playlists;
      ghost var slugs := Slugs();
      ghost var k := IndexOf(slugs, Slug(title));
      forall j | 0 <= j < |start| && j != k
        ensures start[j].slug != Slug(title)
      {
        if j > k {
          assert slugs[k] != slugs[j];
        }
      }
      store' := store;
      var i := 0;
      while i < |playlists|
        invariant 0 <= i <= |start|
        invariant PlaylistsValid()
        invariant i <= k ==> playlists == start && store' == store
        invariant k < i ==> playlists == RemoveAt(start, k) && i <= |playlists| + 1
                            && Slugs() == RemoveAt(slugs, k) && Titles() == RemoveAt(old(Titles()), k)
                            && store' == RemoveStep(store, Slug(title), faults).0
        invariant maps == old(maps) && trackFiles == old(trackFiles) && tracksDir == old(tracksDir)
      {
        store' := DropPlaylistStep(title, i, k, start, slugs, old(Titles()), store, store', faults);
        i := i + 1;
      }
    }

    /** One turn of the `remove_playlist` scan at position `i`, where only
        the `k`-th of the playlists it started from has the slug: that one
        has its file removed and is deleted, and the next one moves into its
        slot. */
    method DropPlaylistStep(title: string, i: nat, ghost k: nat, ghost start: seq<Playlist>,
                            ghost slugs: seq<string>, ghost titles: seq<string>,
                            store: Store, current: Store, faults: set<IoStep>)
      returns (store': Store)
      requires PlaylistsValid() && i < |playlists| && i <= |start| && k < |start|
      requires slugs == SlugsOf(start) && titles == TitlesOfPlaylists(start)
      requires start[k].slug == Slug(title)
      requires forall j :: 0 <= j < |start| && j != k ==> start[j].slug != Slug(title)
      requires i <= k ==> playlists == start && current == store
      requires k < i ==> playlists == RemoveAt(start, k) && current == RemoveStep(store, Slug(title), faults).0
      modifies this
      ensures PlaylistsValid() && |playlists| <= old(|playlists|)
      ensures i + 1 <= k ==> playlists == start && store' == store
      ensures k < i + 1 ==> playlists == RemoveAt(start, k) && i + 1 <= |playlists| + 1
                            && Slugs() == RemoveAt(slugs, k) && Titles() == RemoveAt(titles, k)
                            && store' == RemoveStep(store, Slug(title), faults).0
      ensures maps == old(maps) && trackFiles == old(trackFiles) && tracksDir == old(tracksDir)
    {
      store' := current;
      if Slug(title) == playlists[i].slug {
        var s, _ := playlists[i].Remove(store', faults);
        store' := s;
        DeletePlaylistAt(i);
      }
      assert k < i + 1 ==> Slugs() == RemoveAt(slugs, k) && Titles() == RemoveAt(titles, k);
    }

    /** Deletes the playlist at position `i`, moving the later ones down. */
    method DeletePlaylistAt(i: nat)
      requires PlaylistsValid() && i < |playlists|
      modifies this
      ensures PlaylistsValid()
      ensures playlists == RemoveAt(old(playlists), i)
      ensures Slugs() == RemoveAt(old(Slugs()), i) && Titles() == RemoveAt(old(Titles()), i)
      ensures maps == old(maps) && trackFiles == old(trackFiles) && tracksDir == old(tracksDir)
    {
      DistinctRemoveAt(playlists, i);
      DistinctRemoveAt(Slugs(), i);
      playlists := RemoveAt(playlists, i);
      assert Slugs() == RemoveAt(old(Slugs()), i);
      assert Titles() == RemoveAt(old(Titles()), i);
    }

    /** `edit_playlist` on a known playlist `p`, the one at position `k`. */
    method EditExisting(title: string, p: Playlist, ghost k: nat, d: EditData, store: Store, faults: set<IoStep>)
      returns (store': Store, callbacks: seq<Option<Error>>)
      requires Valid() && title != ""
      requires k == IndexOf(Slugs(), Slug(title)) && k < |playlists| && p == playlists[k]
      modifies this, maps, p
      ensures Valid()
      ensures old(Aligned()) ==> Aligned()
      ensures playlists == old(playlists) && trackFiles == old(trackFiles) && tracksDir == old(tracksDir)
      ensures var v1 := EditedValue(old(p.Value()), d, old(Slugs()));
              var ch := Changed(d, old(Slugs()));
              var o := SaveStep(store, v1, faults);
              p.Value() == (if ch && o.renamed then v1.(oldSlug := "") else v1)
              && store' == (if ch then o.store else store)
              && callbacks == (if Taken(d, old(Slugs())) then [Some(AlreadyExists(d.title.v))] else [])
                              + (if ch then o.callbacks else [])
      ensures var n := NewTitle(d, old(Slugs()));
              MapValues() == if n != "" then MapEdited(old(MapValues()), title, Some(n)) else old(MapValues())
    {
      ghost var slugs := Slugs();
      ghost var v0 := p.Value();
      ghost var v1 := EditedValue(v0, d, slugs);
      callbacks := [];
      var configChanged := false;
      var titleChanged := false;
      if !d.config.Undefined? {
        ReconfigurePlaylist(p, k, d.config);
        configChanged := true;
      }
      ghost var mid := v0.(config := Reconfigured(v0.config, d.config));
      assert p.Value() == mid;
      titleChanged, callbacks := TitleStep(title, p, k, d);
      assert p.Value() == v1;
      assert configChanged || titleChanged <==> Changed(d, slugs);
      if configChanged || titleChanged {
        var cbs;
        store', cbs := SavePlaylist(p, k, store, faults);
        callbacks := callbacks + cbs;
      } else {
        store' := store;
      }
    }

    /** The title step of `edit_playlist`: a `null` or free new title is
        applied, a taken one is reported. Returns whether the step ran. */
    method TitleStep(title: string, p: Playlist, ghost k: nat, d: EditData)
      returns (ran: bool, callbacks: seq<Option<Error>>)
      requires Valid() && title != ""
      requires k == IndexOf(Slugs(), Slug(title)) && k < |playlists| && p == playlists[k]
      modifies this, maps, p
      ensures Valid()
      ensures old(Aligned()) ==> Aligned()
      ensures playlists == old(playlists) && trackFiles == old(trackFiles) && tracksDir == old(tracksDir)
      ensures p.Value() == Renamed(old(p.Value()), NewTitle(d, old(Slugs())))
      ensures ran <==> d.title.Null? || NewTitle(d, old(Slugs())) != ""
      ensures callbacks == if Taken(d, old(Slugs())) then [Some(AlreadyExists(d.title.v))] else []
      ensures var n := NewTitle(d, old(Slugs()));
              MapValues() == if n != "" then MapEdited(old(MapValues()), title, Some(n)) else old(MapValues())
    {
      ghost var slugs := Slugs();
      ran := false;
      callbacks := [];
      if !d.title.Undefined? && d.title != Val("") {
        var nt := if d.title.Val? then d.title.v else "";
        var other := GetPlaylist(nt);
        if other == null {
          assert nt == NewTitle(d, slugs);
          ghost var titles := Titles();
          ghost var aligned := Aligned();
          RetitlePlaylist(title, p, k, nt);
          if nt != "" && aligned {
            MirrorsEdit(titles, slugs, title, nt);
          }
          ran := true;
        } else {
          assert Taken(d, slugs) && NewTitle(d, slugs) == "";
          callbacks := [Some(AlreadyExists(nt))];
        }
      } else {
        assert NewTitle(d, slugs) == "" && !Taken(d, slugs);
      }
    }

    /** The config step of `edit_playlist` on the playlist at position `k`. */
    method ReconfigurePlaylist(p: Playlist, ghost k: nat, a: Arg<RawConfig>)
      requires PlaylistsValid() && k < |playlists| && playlists[k] == p
      modifies p
      ensures PlaylistsValid()
      ensures Slugs() == old(Slugs()) && Titles() == old(Titles())
      ensures p.Value() == old(p.Value()).(config := Reconfigured(old(p.Value()).config, a))
      ensures MapValues() == old(MapValues()) && (old(MapsValid()) ==> MapsValid())
    {
      p.SetConfig(a);
      assert Slugs() == old(Slugs());
      assert Titles() == old(Titles());
    }

    /** The title step of `edit_playlist` once the new title `nt` is known to
        be free (or empty, for `null`): the playlist is re-titled and its
        entry goes through `edit_map`. */
    method RetitlePlaylist(title: string, p: Playlist, ghost k: nat, nt: string)
      requires title != "" && (nt != "" ==> Slug(nt) !in Slugs())
      requires Valid() && k == IndexOf(Slugs(), Slug(title)) && k < |playlists| && playlists[k] == p
      modifies this, maps, p
      ensures Valid()
      ensures playlists == old(playlists) && trackFiles == old(trackFiles) && tracksDir == old(tracksDir)
      ensures p.Value() == Renamed(old(p.Value()), nt)
      ensures Titles() == if nt == "" then old(Titles()) else old(Titles())[k := nt]
      ensures MapValues() == if nt != "" then MapEdited(old(MapValues()), title, Some(nt)) else old(MapValues())
    {
      ghost var mv := MapValues();
      RenamePlaylist(p, k, nt);
      assert MapValues() == mv;
      EditEntryOf(title, nt, p);
      if nt == "" {
        MapEditedEmpty(mv, title);
      }
    }

    /** `edit_map(title, nt)` seen from the playlist `p` being re-titled:
        the playlists, `p` included, are left as they are. */
    method EditEntryOf(title: string, nt: string, ghost p: Playlist)
      requires Valid()
      modifies this, maps
      ensures Valid()
      ensures MapValues() == MapEdited(old(MapValues()), title, Some(nt))
      ensures playlists == old(playlists) && trackFiles == old(trackFiles) && tracksDir == old(tracksDir)
      ensures Titles() == old(Titles()) && p.Value() == old(p.Value())
    {
      EditMap(title, Some(nt));
    }

    /** `set_title(nt)` on the playlist at position `k`, with `nt` free or empty. */
    method RenamePlaylist(p: Playlist, ghost k: nat, nt: string)
      requires PlaylistsValid() && k < |playlists| && playlists[k] == p
      requires nt != "" ==> Slug(nt) !in Slugs()
      modifies p
      ensures PlaylistsValid()
      ensures p.Value() == Renamed(old(p.Value()), nt)
      ensures Titles() == if nt == "" then old(Titles()) else old(Titles())[k := nt]
      ensures Slugs() == if nt == "" then old(Slugs()) else old(Slugs())[k := Slug(nt)]
    {
      ghost var titles := Titles();
      ghost var slugs := Slugs();
      p.SetTitle(nt);
      assert Slugs() == slugs[k := p.slug];
      assert Titles() == titles[k := p.title];
      if nt != "" {
        assert nt != titles[k] by {
          assert Slug(nt) != slugs[k];
        }
        KeyedUpdate(titles, slugs, k, nt);
      }
    }

    /** `edit_playlist`. An unknown title goes to `add_playlist` with the
        whole `new_data` object as its config; a known one takes the new
        config and title and is saved when either step ran. */
    method EditPlaylist(title: string, data: Option<EditData>, store: Store, faults: set<IoStep>)
      returns (store': Store, callbacks: seq<Option<Error>>)
      requires Valid()
      modifies this, maps, playlists
      ensures Valid()
      ensures old(Aligned()) ==> Aligned()
      ensures trackFiles == old(trackFiles) && tracksDir == old(tracksDir)
      ensures title == "" ==>
                playlists == old(playlists) && MapValues() == old(MapValues()) && store' == store && callbacks == []
      ensures title != "" && Slug(title) !in old(Slugs()) ==>
                var n := |old(playlists)|;
                var v := Constructed(title, ConfigArgOf(data));
                var o := SaveStep(store, v, faults);
                |playlists| == n + 1 && playlists[..n] == old(playlists) && fresh(playlists[n])
                && playlists[n].Value() == v && store' == o.store && callbacks == o.callbacks
                && MapValues() == MapsAdded(old(MapValues()), One(title))
      ensures title != "" && Slug(title) in old(Slugs()) && data.None? ==>
                playlists == old(playlists) && MapValues() == old(MapValues()) && store' == store && callbacks == []
      ensures title != "" && Slug(title) in old(Slugs()) && data.Some? ==>
                var k := IndexOf(old(Slugs()), Slug(title));
                var d := data.value;
                var v1 := EditedValue(old(playlists[k].Value()), d, old(Slugs()));
                var ch := Changed(d, old(Slugs()));
                var o := SaveStep(store, v1, faults);
                var n := NewTitle(d, old(Slugs()));
                playlists == old(playlists)
                && (forall j :: 0 <= j < |playlists| && j != k ==> unchanged(playlists[j]))
                && playlists[k].Value() == (if ch && o.renamed then v1.(oldSlug := "") else v1)
                && store' == (if ch then o.store else store)
                && callbacks == (if Taken(d, old(Slugs())) then [Some(AlreadyExists(d.title.v))] else [])
                                + (if ch then o.callbacks else [])
                && MapValues() == (if n != "" then MapEdited(old(MapValues()), title, Some(n)) else old(MapValues()))
    {
      if title == "" {
        return store, [];
      }
      var p := GetPlaylist(title);
      if p == null {
        store', callbacks := AddPlaylist(title, ConfigArgOf(data), store, faults);
        return;
      }
      if data.None? {
        return store, [];
      }
      store', callbacks := EditKnown(title, p, IndexOf(Slugs(), Slug(title)), data.value, store, faults);
    }

    /** `edit_playlist` with `new_data` on the known playlist `p` at position
        `k`: only `p` among the playlists changes. */
    method EditKnown(title: string, p: Playlist, ghost k: nat, d: EditData, store: Store, faults: set<IoStep>)
      returns (store': Store, callbacks: seq<Option<Error>>)
      requires Valid() && title != ""
      requires k == IndexOf(Slugs(), Slug(title)) && k < |playlists| && p == playlists[k]
      modifies this, maps, playlists
      ensures Valid()
      ensures old(Aligned()) ==> Aligned()
      ensures playlists == old(playlists) && trackFiles == old(trackFiles) && tracksDir == old(tracksDir)
      ensures forall j :: 0 <= j < |playlists| && j != k ==> unchanged(playlists[j])
      ensures var v1 := EditedValue(old(p.Value()), d, old(Slugs()));
              var ch := Changed(d, old(Slugs()));
              var o := SaveStep(store, v1, faults);
              p.Value() == (if ch && o.renamed then v1.(oldSlug := "") else v1)
              && store' == (if ch then o.store else store)
              && callbacks == (if Taken(d, old(Slugs())) then [Some(AlreadyExists(d.title.v))] else [])
                              + (if ch then o.callbacks else [])
      ensures var n := NewTitle(d, old(Slugs()));
              MapValues() == if n != "" then MapEdited(old(MapValues()), title, Some(n)) else old(MapValues())
    {
      assert forall j :: 0 <= j < |playlists| && j != k ==> playlists[j] != p;
      store', callbacks := EditExisting(title, p, k, d, store, faults);
    }
  }
}
