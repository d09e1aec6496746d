/** A playlist: a title, the slug its file is keyed by, the slug of a file
    still waiting to be renamed, and a configuration. Saving and removing act
    on a store of playlist files keyed by slug; what the file system does is
    decided by the store's contents and by the set of steps that fail. */
module Playlists {
  import opened Utils
  import opened Tracks
  import opened Configs

  datatype PlaylistValue = PlaylistValue(title: string, slug: string, oldSlug: string, config: ConfigValue)

  /** The playlist `new Playlist()` holds before its title and config are set. */
  const Blank := PlaylistValue("", "", "", DefaultConfig)

  /** The playlist after `set_title(t)`: an empty or unchanged title is
      ignored; otherwise the current slug becomes the pending old slug,
      replacing any rename still pending. */
  function Renamed(v: PlaylistValue, t: string): PlaylistValue {
    if t == "" || t == v.title then v
    else v.(title := t, oldSlug := v.slug, slug := Slug(t))
  }

  /** The configuration after `set_config(a)`: anything but an object is rejected. */
  function Reconfigured(c: ConfigValue, a: Arg<RawConfig>): ConfigValue {
    if a.Val? then Built(a.v) else c
  }

  /** The playlist `new Playlist({title: t, config: a})` builds. */
  function Constructed(t: string, a: Arg<RawConfig>): PlaylistValue {
    var v := Renamed(Blank, t);
    v.(config := Reconfigured(v.config, a))
  }

  /** A playlist whose slug belongs to its non-empty title. */
  predicate Keyed(v: PlaylistValue) {
    v.title != "" && v.slug == Slug(v.title)
  }

  /** The playlist files, keyed by slug; a file holds the playlist value it was written with. */
  type Store = map<string, PlaylistValue>

  /** The file-system steps `save` and `remove` take. */
  datatype IoStep = Open | Rename | Read | Write | Unlink

  datatype Error = IoFailure(step: IoStep) | AlreadyExists(title: string)

  /** The new store, whether the pending rename was carried out (which clears
      the old slug on the playlist), and the values the callback was called
      with, in order. */
  datatype SaveOutcome = SaveOutcome(store: Store, renamed: bool, callbacks: seq<Option<Error>>)

  /** What `save` writes: the playlist with no rename pending. */
  function Content(v: PlaylistValue): PlaylistValue {
    v.(oldSlug := "")
  }

  /** Read the file at `slug`, and overwrite it only when it differs from `content`. */
  function CompareAndWrite(store: Store, slug: string, content: PlaylistValue, faults: set<IoStep>): (Store, seq<Option<Error>>)
    requires slug in store
  {
    if Read in faults then (store, [Some(IoFailure(Read))])
    else if store[slug] == content then (store, [None])
    else if Write in faults then (store, [Some(IoFailure(Write))])
    else (store[slug := content], [None])
  }

  /** The store after moving the file at `from` to `to`, replacing whatever was there. */
  function Moved(store: Store, from: string, to: string): Store
    requires from in store
  {
    (store - {from})[to := store[from]]
  }

  /** `save`. With a rename pending: an old file that cannot be opened ends
      the save silently; otherwise the file is moved to the new slug and then
      compared and written. With none pending: a file that cannot be opened
      is created, an existing one is compared and written. */
  function SaveStep(store: Store, v: PlaylistValue, faults: set<IoStep>): SaveOutcome {
    if v.oldSlug != "" then
      if v.oldSlug !in store || Open in faults then SaveOutcome(store, false, [])
      else if Rename in faults then SaveOutcome(store, false, [Some(IoFailure(Rename))])
      else
        var w := CompareAndWrite(Moved(store, v.oldSlug, v.slug), v.slug, Content(v), faults);
        SaveOutcome(w.0, true, w.1)
    else if v.slug !in store || Open in faults then
      if Write in faults then SaveOutcome(store, false, [Some(IoFailure(Write))])
      else SaveOutcome(store[v.slug := Content(v)], false, [None])
    else
      var w := CompareAndWrite(store, v.slug, Content(v), faults);
      SaveOutcome(w.0, false, w.1)
  }

  /** `remove`: the new store and the value the callback was called with. */
  function RemoveStep(store: Store, slug: string, faults: set<IoStep>): (Store, Option<Error>) {
    if slug !in store || Open in faults then (store, Some(IoFailure(Open)))
    else if Unlink in faults then (store, Some(IoFailure(Unlink)))
    else (store - {slug}, None)
  }

  class Playlist {
    var title: string
    var slug: string
    var oldSlug: string
    var config: Config

    function Value(): PlaylistValue
      reads this, config, config.tracks
    {
      PlaylistValue(title, slug, oldSlug, config.Value())
    }

    /** `args` as an object: `t` is its title ("" when missing) and `a` its config. */
    constructor (t: string, a: Arg<RawConfig>)
      ensures Value() == Constructed(t, a)
      ensures fresh(config)
    {
      title := "";
      oldSlug := "";
      slug := "";
      config := new Config(Undefined, None);
      new;
      SetTitle(t);
      if !a.Undefined? {
        SetConfig(a);
      }
    }

    method SetTitle(t: string)
      modifies this
      ensures Value() == Renamed(old(Value()), t)
      ensures config == old(config)
    {
      if t == "" {
        return;
      }
      if t != title {
        title := t;
        oldSlug := slug;
        slug := Slug(t);
      }
    }

    /** Replaces the configuration by a fresh one built from the argument's
        volume and tracks. */
    method SetConfig(a: Arg<RawConfig>)
      modifies this
      ensures Value() == old(Value()).(config := Reconfigured(old(Value()).config, a))
      ensures a.Val? ==> fresh(config)
      ensures !a.Val? ==> config == old(config)
    {
      if !a.Val? {
        return;
      }
      config := new Config(a.v.volume, a.v.tracks);
    }

    /** `save`, with the callback's arguments returned in order. */
    method Save(store: Store, faults: set<IoStep>) returns (store': Store, callbacks: seq<Option<Error>>)
      modifies this
      ensures var o := SaveStep(store, old(Value()), faults);
              store' == o.store && callbacks == o.callbacks
              && Value() == old(Value()).(oldSlug := if o.renamed then "" else old(oldSlug))
      ensures config == old(config)
    {
      var content := Value().(oldSlug := "");
      if oldSlug != "" {
        if oldSlug !in store || Open in faults {
          return store, [];
        }
        if Rename in faults {
          return store, [Some(IoFailure(Rename))];
        }
        store' := (store - {oldSlug})[slug := store[oldSlug]];
        oldSlug := "";
        store', callbacks := WriteIfChanged(store', slug, content, faults);
      } else if slug !in store || Open in faults {
        if Write in faults {
          return store, [Some(IoFailure(Write))];
        }
        return store[slug := content], [None];
      } else {
        store', callbacks := WriteIfChanged(store, slug, content, faults);
      }
    }

    /** `remove`, with the callback's argument returned. */
    method Remove(store: Store, faults: set<IoStep>) returns (store': Store, err: Option<Error>)
      ensures (store', err) == RemoveStep(store, slug, faults)
    {
      if slug !in store || Open in faults {
        return store, Some(IoFailure(Open));
      }
      if Unlink in faults {
        return store, Some(IoFailure(Unlink));
      }
      return store - {slug}, None;
    }
  }

  /** The read, compare and write that ends both branches of `save`. */
  method WriteIfChanged(store: Store, slug: string, content: PlaylistValue, faults: set<IoStep>)
    returns (store': Store, callbacks: seq<Option<Error>>)
    requires slug in store
    ensures (store', callbacks) == CompareAndWrite(store, slug, content, faults)
    ensures callbacks == [None] ==> store'[slug] == content
  {
    if Read in faults {
      return store, [Some(IoFailure(Read))];
    }
    if store[slug] == content {
      return store, [None];
    }
    if Write in faults {
      return store, [Some(IoFailure(Write))];
    }
    return store[slug := content], [None];
  }

  /** A new playlist with a non-empty title is keyed by that title, has no
      rename pending, and holds the default configuration unless one is given. */
  lemma ConstructedKeyed(t: string, a: Arg<RawConfig>)
    requires t != ""
    ensures var v := Constructed(t, a);
            Keyed(v) && v.title == t && v.oldSlug == ""
            && v.config == (if a.Val? then Built(a.v) else DefaultConfig)
  {
  }

  /** `set_title` keeps a playlist keyed and never touches its configuration. */
  lemma RenamedKeyed(v: PlaylistValue, t: string)
    requires Keyed(v)
    ensures Keyed(Renamed(v, t))
    ensures Renamed(v, t).config == v.config
    ensures Renamed(v, t) == v <==> t == "" || t == v.title
  {
  }

  /** Two renames before a save: the pending old slug is the slug of the
      intermediate title, and the slug the file is stored under is lost. */
  lemma RenamedTwiceForgetsFirstSlug(v: PlaylistValue, a: string, b: string)
    requires a != "" && b != "" && a != v.title && b != a
    ensures Renamed(Renamed(v, a), b).oldSlug == Slug(a)
    ensures Renamed(Renamed(v, a), b).slug == Slug(b)
  {
  }

  /** A playlist read back from its file, with the title and configuration
      stored there, is the playlist that was saved. */
  lemma ConstructedFromStored(v: PlaylistValue)
    requires Keyed(v) && v.oldSlug == "" && Storable(v.config)
    ensures Constructed(v.title, Val(StoredRaw(v.config))) == v
  {
    StoredRoundTrip(v.config);
  }

  /** `save` calls back at most once, and stays silent exactly when a rename
      is pending and the old file cannot be opened. */
  lemma SaveCallsBackAtMostOnce(store: Store, v: PlaylistValue, faults: set<IoStep>)
    ensures |SaveStep(store, v, faults).callbacks| <= 1
    ensures SaveStep(store, v, faults).callbacks == []
            <==> v.oldSlug != "" && (v.oldSlug !in store || Open in faults)
  {
  }

  /** A save that reports no error leaves the playlist's content at its slug,
      and a rename pending before it has been carried out. */
  lemma SaveSucceeds(store: Store, v: PlaylistValue, faults: set<IoStep>)
    requires SaveStep(store, v, faults).callbacks == [None]
    ensures var o := SaveStep(store, v, faults);
            v.slug in o.store && o.store[v.slug] == Content(v)
            && o.renamed == (v.oldSlug != "")
  {
  }

  /** A save that reports an error writes nothing: the store is as it was,
      or as the rename left it. */
  lemma SaveFailureWritesNothing(store: Store, v: PlaylistValue, faults: set<IoStep>)
    requires var cb := SaveStep(store, v, faults).callbacks; cb != [] && cb[0].Some?
    ensures var o := SaveStep(store, v, faults);
            if o.renamed then v.oldSlug in store && o.store == Moved(store, v.oldSlug, v.slug)
            else o.store == store
  {
  }

  /** Without faults, a save with no rename pending puts the content at the
      slug and leaves every other file alone. */
  lemma SaveWithoutRename(store: Store, v: PlaylistValue)
    requires v.oldSlug == ""
    ensures SaveStep(store, v, {}) == SaveOutcome(store[v.slug := Content(v)], false, [None])
  {
  }

  /** Without faults, a save with a rename pending and the old file present
      moves the file: the old slug is gone, the content sits at the new one. */
  lemma SaveWithRename(store: Store, v: PlaylistValue)
    requires v.oldSlug != "" && v.oldSlug in store
    ensures var o := SaveStep(store, v, {});
            o.renamed && o.callbacks == [None]
            && o.store == (store - {v.oldSlug})[v.slug := Content(v)]
  {
  }

  /** Saving an unchanged playlist a second time leaves the stored content as
      it was, whatever fails: the file already holds the content. */
  lemma SaveTwiceWritesOnce(store: Store, v: PlaylistValue, faults: set<IoStep>)
    requires v.oldSlug == ""
    ensures var s1 := SaveStep(store, v, {}).store;
            SaveStep(s1, v, faults).store == s1
            && (Read !in faults && Open !in faults ==> SaveStep(s1, v, faults).callbacks == [None])
  {
  }

  /** With a rename pending and the old file missing, `save` does nothing and
      keeps nothing that would let a later save do better: the playlist is
      unchanged, so every repeat is just as silent. */
  lemma SaveSilentWhenOldFileMissing(store: Store, v: PlaylistValue, faults: set<IoStep>)
    requires v.oldSlug != "" && v.oldSlug !in store
    ensures SaveStep(store, v, faults) == SaveOutcome(store, false, [])
  {
  }

  /** A playlist saved under its slug and renamed twice before the next save
      is never saved again: the pending old slug names a file that does not
      exist, and the file under the original slug stays behind. */
  lemma DoubleRenameBeforeSaveOrphans(store: Store, v: PlaylistValue, a: string, b: string, faults: set<IoStep>)
    requires v.oldSlug == "" && v.slug in store
    requires a != "" && b != "" && a != v.title && b != a
    requires Slug(a) != "" && Slug(a) !in store
    ensures var w := Renamed(Renamed(v, a), b);
            SaveStep(store, w, faults) == SaveOutcome(store, false, [])
            && v.slug in SaveStep(store, w, faults).store
  {
    RenamedTwiceForgetsFirstSlug(v, a, b);
  }

  /** `remove` reports an error and keeps the store when the file is missing
      or a step fails; otherwise it deletes exactly the file at the slug. */
  lemma RemoveDeletesExactlyOne(store: Store, slug: string, faults: set<IoStep>)
    ensures var (s, err) := RemoveStep(store, slug, faults);
            (err.None? <==> slug in store && Open !in faults && Unlink !in faults)
            && (err.None? ==> s.Keys == store.Keys - {slug} && forall k :: k in s ==> s[k] == store[k])
            && (err.Some? ==> s == store)
    ensures slug !in store ==> RemoveStep(store, slug, faults).1 == Some(IoFailure(Open))
  {
  }
}
