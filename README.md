# Ambient Weaver playlist core, in Dafny

This project models the in-memory bookkeeping of the Ambient Weaver playlist
manager and proves properties about it. The five layers are:

- **`Track`** (`track.dfy`, module `Tracks`): one audio file. It holds a
  title, a file type derived from the title, a source path, and six playback
  options. Each option has a setter that silently rejects an invalid value.
- **`Config`** (`config.dfy`, module `Configs`): a master volume plus an
  ordered list of tracks, kept unique by title. It supports add, remove,
  edit and lookup. It can also be rebuilt from raw (parsed) track records;
  each record's directory is recovered by slicing its stored path.
- **`Playlist_Map`** (`playlist_map.dfy`, module `PlaylistMaps`): an index
  entry holding a title and the slug of that title.
- **`Playlist`** (`playlist.dfy`, module `Playlists`):
  - a title, a slug, and a pending old slug that records a rename;
  - a configuration that is replaced as a whole;
  - `save` and `remove`, modelled as transitions on a store of playlist
    files keyed by slug.
- **`Playlist_Controller`** (`playlist_controller.dfy`, module `Controller`):
  owns the index entries, the playlists, the track-file list and the tracks
  directory. Adding, removing and editing playlists also keeps the index
  entries in step.

Helper modules:

- `utils.dfy` (module `Utils`) holds the shared helpers.
  - `Slug` and `ValidFileType` are uninterpreted functions, because the
    `utils` module is not part of this model.
  - `utils.eq` is modelled as value equality.
  - `utils.arr_vals` (compaction after `delete`) is modelled as removal from
    the sequence.
- `sweep.dfy` (module `Sweeps`) models the controller's delete-compact-advance
  scan. That scan skips the element that moves into a freed slot.
- `title_order.dfy` (module `TitleOrder`) models the order JavaScript's
  default `sort()` gives a list of titles.
- `map_index.dfy` (module `MapIndex`) describes the index entries as a value:
  what `add_map`, `remove_map` and `edit_map` do to them, and when they mirror
  the playlists one for one.

How the model is built:

- Each class has a `Value()` view as a datatype.
- Each method's postcondition ties the new view to a specification function of
  the old one.
- The lemmas prove what the source promises about those functions.

The file system is a `map<string, PlaylistValue>` handed in and returned.
Which I/O steps fail is a parameter, a set of `IoStep`s. A callback's argument
is returned as an `Option<Error>`; `None` stands for JavaScript's `null`.

Argument conventions:

- A JavaScript argument that may be `undefined` or `null` is an
  `Arg<T> = Undefined | Null | Val(v)`.
- Titles that the source guards with one check for `undefined`, `null` and
  `''` are plain strings, with `""` standing for all three.

Behaviour of the code a reader might not expect (the model follows the code):

- `Playlist.set_title` copies the current slug into `old_slug` on every title
  change, even when a rename is already pending.
- `save` with a pending rename and no old file writes nothing and never calls
  back. It does not fall back to a first-time save.
- `edit_playlist` rejects a new title whose slug any playlist holds, including
  the playlist being edited.
- `set_tracks_dir` accepts the empty string.
- The filter loop of `read_tracks` does not drop every unplayable file: the
  file right after a deleted one is never checked.
- The `remove_playlist` scan skips the playlist right after a deleted one.
  Slugs are unique, so this loses nothing there.
- `read_tracks` compares the stored track records with the filtered file
  names. These never match, so the list is rebuilt unless both are empty.

## Model

| member | source | states |
|---|---|---|
| Tracks.Track.constructor | Audio-Player-App-win32-x64/resources/app/src/modules/track/track.js:8-26 | a new track is the defaults, then `set_title`, `set_options` and `set_src`, and satisfies the setter invariant |
| Tracks.CreatedFromDefaults | Audio-Player-App-win32-x64/resources/app/src/modules/track/track.js:10-21 | the starting record is volume 1, loop on, delay 20, other times 0, empty title, type and path; those options are valid |
| Tracks.Track.SetTitle | Audio-Player-App-win32-x64/resources/app/src/modules/track/track.js:33-43 | an empty title changes nothing; otherwise only title and file type change, path and options are kept, and the invariant is preserved |
| Tracks.AfterLastDotSpec | Audio-Player-App-win32-x64/resources/app/src/modules/track/track.js:41-42 | the extension search finds nothing exactly when there is no '.', and otherwise returns the dot-free text after the last '.' |
| Tracks.FileTypeSpec | Audio-Player-App-win32-x64/resources/app/src/modules/track/track.js:41-42 | the file type is the dot-free non-empty suffix after the last '.', and "" exactly when there is no '.' or the title ends in '.' |
| Tracks.FileTypeExamples | Audio-Player-App-win32-x64/resources/app/src/modules/track/track.js:41-42 | "song.mp3" has type "mp3", "archive.tar.ogg" has "ogg", "noext" and "dot." have "" |
| Tracks.Track.SetOptions | Audio-Player-App-win32-x64/resources/app/src/modules/track/track.js:50-73 | the options become `Applied(old options, raw)`, and title, type and path are unchanged |
| Tracks.Applied | Audio-Player-App-win32-x64/resources/app/src/modules/track/track.js:50-73 | valid options stay valid; a missing or null options object changes nothing |
| Tracks.AppliedAbsentFields | Audio-Player-App-win32-x64/resources/app/src/modules/track/track.js:51-71 | an absent field keeps its value; an absent end point takes a present, non-negative duration and otherwise stays |
| Tracks.AppliedIdempotent | Audio-Player-App-win32-x64/resources/app/src/modules/track/track.js:50-73 | applying the same options twice is the same as applying them once |
| Tracks.AppliedRawOf | Audio-Player-App-win32-x64/resources/app/src/modules/track/track.js:50-73 | applying a valid options record written out in full to the defaults gives that record back |
| Tracks.Track.SetVolume | Audio-Player-App-win32-x64/resources/app/src/modules/track/track.js:80-87 | the volume is stored only when it lies in [0,1]; every other field is unchanged |
| Tracks.Track.SetLoop | Audio-Player-App-win32-x64/resources/app/src/modules/track/track.js:94-101 | a boolean is stored, undefined and null are rejected; every other field is unchanged |
| Tracks.Track.SetDelay | Audio-Player-App-win32-x64/resources/app/src/modules/track/track.js:108-115 | only a non-negative delay is stored; every other field is unchanged |
| Tracks.Track.SetDuration | Audio-Player-App-win32-x64/resources/app/src/modules/track/track.js:123-130 | only a non-negative duration is stored; every other field is unchanged |
| Tracks.Track.SetStartPoint | Audio-Player-App-win32-x64/resources/app/src/modules/track/track.js:138-145 | only a non-negative start point is stored; every other field is unchanged |
| Tracks.Track.SetEndPoint | Audio-Player-App-win32-x64/resources/app/src/modules/track/track.js:153-160 | only a non-negative end point is stored; every other field is unchanged |
| Tracks.Track.SetSrc | Audio-Player-App-win32-x64/resources/app/src/modules/track/track.js:168-174 | an empty directory keeps the path; otherwise the path is directory + "/" + title; nothing else changes |
| Configs.Config.constructor | Audio-Player-App-darwin-x64/Audio-Player-App.app/Contents/Resources/app/src/modules/config/config.js:13-34 | the new config is the volume if valid (else 1.0) and the tracks rebuilt from the raw records (none without records); it is valid and its tracks are new objects |
| Configs.Config.AddRaws | Audio-Player-App-darwin-x64/Audio-Player-App.app/Contents/Resources/app/src/modules/config/config.js:23-33 | the loop over raw records leaves exactly the rebuilt list, keeping the config valid and the volume unchanged |
| Configs.Config.AddRaw | Audio-Player-App-darwin-x64/Audio-Player-App.app/Contents/Resources/app/src/modules/config/config.js:25-31 | a record titled "undefined" is skipped; any other goes to `add_track` with the directory sliced off its path |
| Configs.Config.SetVolume | Audio-Player-App-darwin-x64/Audio-Player-App.app/Contents/Resources/app/src/modules/config/config.js:41-48 | the master volume is stored only when it lies in [0,1]; the tracks are unchanged |
| Configs.Config.AddTrack | Audio-Player-App-darwin-x64/Audio-Player-App.app/Contents/Resources/app/src/modules/config/config.js:57-76 | an empty or known title leaves the list as it is (the first insertion wins); otherwise exactly one new track is appended at the end; titles stay unique |
| Configs.AddedWellFormed | Audio-Player-App-darwin-x64/Audio-Player-App.app/Contents/Resources/app/src/modules/config/config.js:63-75 | `add_track` keeps titles pairwise distinct and tracks well-formed |
| Configs.Config.RemoveTrack | Audio-Player-App-darwin-x64/Audio-Player-App.app/Contents/Resources/app/src/modules/config/config.js:83-101 | the delete-and-compact loop removes exactly the track with the title and keeps the others in order; an unknown title changes nothing |
| Configs.Config.DropTitled | Audio-Player-App-darwin-x64/Audio-Player-App.app/Contents/Resources/app/src/modules/config/config.js:95-100 | when exactly one track has the title, the delete-compact-advance loop removes just that track and keeps the rest in order |
| Configs.RemovedWellFormed | Audio-Player-App-darwin-x64/Audio-Player-App.app/Contents/Resources/app/src/modules/config/config.js:89-100 | `remove_track` keeps titles pairwise distinct and tracks well-formed |
| Configs.RemovedTitles | Audio-Player-App-darwin-x64/Audio-Player-App.app/Contents/Resources/app/src/modules/config/config.js:83-101 | after removal the title is gone and every other title is present exactly when it was before |
| Configs.Config.EditTrack | Audio-Player-App-darwin-x64/Audio-Player-App.app/Contents/Resources/app/src/modules/config/config.js:110-125 | a known track gets its own title back and the options; an unknown title is added as by `add_track`; the config stays valid |
| Configs.Config.UpdateAt | Audio-Player-App-darwin-x64/Audio-Player-App.app/Contents/Resources/app/src/modules/config/config.js:121-124 | the found track is re-titled and takes the options, and no other track changes |
| Configs.EditedWellFormed | Audio-Player-App-darwin-x64/Audio-Player-App.app/Contents/Resources/app/src/modules/config/config.js:116-124 | `edit_track` keeps titles pairwise distinct and tracks well-formed |
| Configs.EditedKeepsTrack | Audio-Player-App-darwin-x64/Audio-Player-App.app/Contents/Resources/app/src/modules/config/config.js:121-124 | editing a known title keeps that track's title, type, path and place, changes only its options, and touches no other track |
| Configs.EditNeverRenames | Audio-Player-App-darwin-x64/Audio-Player-App.app/Contents/Resources/app/src/modules/config/config.js:116-124 | the titles after an edit are the titles after adding the same title: an edit never renames |
| Configs.Config.GetTrack | Audio-Player-App-darwin-x64/Audio-Player-App.app/Contents/Resources/app/src/modules/config/config.js:133-146 | null exactly when the title is empty or absent; otherwise the first track whose title equals it exactly |
| Configs.RebuiltWellFormed | Audio-Player-App-darwin-x64/Audio-Player-App.app/Contents/Resources/app/src/modules/config/config.js:23-33 | a rebuilt list has well-formed tracks with unique titles |
| Configs.RebuiltTitles | Audio-Player-App-darwin-x64/Audio-Player-App.app/Contents/Resources/app/src/modules/config/config.js:23-33 | the rebuilt list holds exactly the titles of records that are neither empty nor "undefined" |
| Configs.RebuiltOrder | Audio-Player-App-darwin-x64/Audio-Player-App.app/Contents/Resources/app/src/modules/config/config.js:24-32 | records are added in input order: rebuilding a prefix gives a prefix of the result |
| Configs.RebuiltFirstWins | Audio-Player-App-darwin-x64/Audio-Player-App.app/Contents/Resources/app/src/modules/config/config.js:24-32 | the first record with an accepted title is the track kept; later duplicates are dropped |
| Configs.RebuildStepNew | Audio-Player-App-darwin-x64/Audio-Player-App.app/Contents/Resources/app/src/modules/config/config.js:25-31 | a record with a new accepted title is appended as the track it describes |
| Configs.RebuildStepKeeps | Audio-Player-App-darwin-x64/Audio-Player-App.app/Contents/Resources/app/src/modules/config/config.js:25-31 | a record never moves or replaces a track already in the list |
| Configs.SrcRoundTrip | Audio-Player-App-darwin-x64/Audio-Player-App.app/Contents/Resources/app/src/modules/config/config.js:26-30 | a path that is empty, or a non-empty directory followed by "/" and the title, gives itself back when sliced and joined again |
| Configs.DirRoundTrip | Audio-Player-App-darwin-x64/Audio-Player-App.app/Contents/Resources/app/src/modules/config/config.js:26-30 | slicing the path `set_src` builds from a non-empty directory recovers the directory |
| Configs.CreatedFromStored | Audio-Player-App-darwin-x64/Audio-Player-App.app/Contents/Resources/app/src/modules/config/config.js:26-30 | a stored well-formed track with a restorable path, re-created from its record, is the same track |
| Configs.RebuiltRawsOf | Audio-Player-App-darwin-x64/Audio-Player-App.app/Contents/Resources/app/src/modules/config/config.js:23-33 | rebuilding the records of a storable track list gives the list back |
| Configs.StoredRoundTrip | Audio-Player-App-darwin-x64/Audio-Player-App.app/Contents/Resources/app/src/modules/config/config.js:13-34 | a storable configuration written out and rebuilt by the constructor is the same configuration |
| PlaylistMaps.PlaylistMap.constructor | Audio-Player-App-win32-x64/resources/app/src/modules/playlist_map/playlist_map.js:10-12 | a new entry is the unset entry after `set_title(t)` |
| PlaylistMaps.PlaylistMap.SetTitle | Audio-Player-App-win32-x64/resources/app/src/modules/playlist_map/playlist_map.js:14-22 | an empty title changes nothing; otherwise title is t and slug is Slug(t) |
| PlaylistMaps.NewEntry | Audio-Player-App-win32-x64/resources/app/src/modules/playlist_map/playlist_map.js:10-22 | a new entry is consistent; its title is t exactly when t is non-empty, and it is unset exactly when t is empty |
| PlaylistMaps.TitledConsistent | Audio-Player-App-win32-x64/resources/app/src/modules/playlist_map/playlist_map.js:14-22 | `set_title` keeps an entry consistent, and a set title always carries its own slug |
| PlaylistMaps.TitledIdempotent | Audio-Player-App-win32-x64/resources/app/src/modules/playlist_map/playlist_map.js:14-22 | setting the same title twice is the same as setting it once |
| Playlists.Playlist.constructor | Ambient-Weaver-win32-x64/resources/app/src/modules/playlist/playlist.js:15-40 | the new playlist is blank, then `set_title`, then `set_config` when a config is given; its config is a new object |
| Playlists.ConstructedKeyed | Ambient-Weaver-win32-x64/resources/app/src/modules/playlist/playlist.js:15-40 | with a non-empty title: title t, slug Slug(t), no pending rename, the default config unless an object is supplied |
| Playlists.ConstructedFromStored | Ambient-Weaver-win32-x64/resources/app/src/modules/playlist/playlist.js:15-40 | a saved playlist re-created from its stored title and config is the same playlist |
| Playlists.Playlist.SetTitle | Ambient-Weaver-win32-x64/resources/app/src/modules/playlist/playlist.js:47-58 | an empty or unchanged title changes nothing; otherwise the old slug becomes the current slug and the slug becomes Slug(t); the config object stays |
| Playlists.RenamedKeyed | Ambient-Weaver-win32-x64/resources/app/src/modules/playlist/playlist.js:47-58 | `set_title` keeps a playlist keyed by its title and never touches its config; it is a no-op exactly for an empty or unchanged title |
| Playlists.RenamedTwiceForgetsFirstSlug | Ambient-Weaver-win32-x64/resources/app/src/modules/playlist/playlist.js:53-57 | after two renames the pending old slug is the intermediate title's slug: the original slug is overwritten |
| Playlists.Playlist.SetConfig | Ambient-Weaver-win32-x64/resources/app/src/modules/playlist/playlist.js:65-72 | a non-object is rejected; otherwise the config is a new one built from the argument's volume and tracks |
| Playlists.Playlist.Save | Ambient-Weaver-win32-x64/resources/app/src/modules/playlist/playlist.js:80-191 | the new store and the callback arguments are those of `SaveStep`; the old slug is cleared exactly when the rename was carried out |
| Playlists.WriteIfChanged | Ambient-Weaver-win32-x64/resources/app/src/modules/playlist/playlist.js:160-186 | read, compare and write only when different; a callback of null means the file now holds the content |
| Playlists.SaveCallsBackAtMostOnce | Ambient-Weaver-win32-x64/resources/app/src/modules/playlist/playlist.js:80-191 | `save` calls back at most once, and never exactly when a rename is pending and the old file cannot be opened |
| Playlists.SaveSucceeds | Ambient-Weaver-win32-x64/resources/app/src/modules/playlist/playlist.js:80-191 | a save reporting null leaves the content at the slug and has carried out any pending rename |
| Playlists.SaveFailureWritesNothing | Ambient-Weaver-win32-x64/resources/app/src/modules/playlist/playlist.js:80-191 | a save reporting an error leaves the store as it was, or as the rename left it |
| Playlists.SaveWithoutRename | Ambient-Weaver-win32-x64/resources/app/src/modules/playlist/playlist.js:141-190 | with no rename pending and no fault, the content ends up at the slug (created or overwritten) and nothing else changes |
| Playlists.SaveTwiceWritesOnce | Ambient-Weaver-win32-x64/resources/app/src/modules/playlist/playlist.js:160-186 | saving an unchanged playlist a second time leaves the stored content as it was, and reports null unless opening or reading fails |
| Playlists.SaveWithRename | Ambient-Weaver-win32-x64/resources/app/src/modules/playlist/playlist.js:90-140 | with a rename pending and the old file present, the file moves from the old slug to the new one, holding the content |
| Playlists.SaveSilentWhenOldFileMissing | Ambient-Weaver-win32-x64/resources/app/src/modules/playlist/playlist.js:93-140 | with a rename pending and no old file, nothing is written, no callback fires and the rename stays pending |
| Playlists.DoubleRenameBeforeSaveOrphans | Ambient-Weaver-win32-x64/resources/app/src/modules/playlist/playlist.js:53-57 | a saved playlist renamed twice before its next save is never saved again, and its original file stays behind |
| Playlists.Playlist.Remove | Ambient-Weaver-win32-x64/resources/app/src/modules/playlist/playlist.js:199-230 | the new store and the callback argument are those of `RemoveStep` |
| Playlists.RemoveDeletesExactlyOne | Ambient-Weaver-win32-x64/resources/app/src/modules/playlist/playlist.js:199-230 | removal succeeds exactly when the file exists and no step fails, and then deletes exactly that file; a missing file reports an open error |
| Sweeps.SweepDeleteStep | Ambient-Weaver-darwin-x64/Ambient-Weaver.app/Contents/Resources/app/src/modules/playlist_controller/playlist_controller.js:594-603 | deleting the current element and advancing keeps the outcome of the scan unchanged |
| Sweeps.SweepKeepStep | Ambient-Weaver-darwin-x64/Ambient-Weaver.app/Contents/Resources/app/src/modules/playlist_controller/playlist_controller.js:594-603 | keeping the current element and advancing keeps the outcome of the scan unchanged |
| Sweeps.SweepNoHit | Ambient-Weaver-darwin-x64/Ambient-Weaver.app/Contents/Resources/app/src/modules/playlist_controller/playlist_controller.js:594-603 | with nothing to drop, the scan keeps the list |
| Sweeps.SweepSingleHit | Ambient-Weaver-darwin-x64/Ambient-Weaver.app/Contents/Resources/app/src/modules/playlist_controller/playlist_controller.js:358-363 | with exactly one element to drop, the scan removes just that element |
| Sweeps.SweepKeepsOthers | Ambient-Weaver-darwin-x64/Ambient-Weaver.app/Contents/Resources/app/src/modules/playlist_controller/playlist_controller.js:594-603 | the scan only removes: it keeps nothing new and keeps every element it must not drop |
| Sweeps.SweepMissesNeighbour | Ambient-Weaver-darwin-x64/Ambient-Weaver.app/Contents/Resources/app/src/modules/playlist_controller/playlist_controller.js:594-603 | of two adjacent elements to drop, the second survives |
| TitleOrder.StrLeTotal | Ambient-Weaver-darwin-x64/Ambient-Weaver.app/Contents/Resources/app/src/modules/playlist_controller/playlist_controller.js:641 | any two strings are ordered one way or the other |
| TitleOrder.StrLeTransitive | Ambient-Weaver-darwin-x64/Ambient-Weaver.app/Contents/Resources/app/src/modules/playlist_controller/playlist_controller.js:641 | the string order is transitive |
| TitleOrder.StrLeAntisymmetric | Ambient-Weaver-darwin-x64/Ambient-Weaver.app/Contents/Resources/app/src/modules/playlist_controller/playlist_controller.js:641 | two strings ordered both ways are equal |
| TitleOrder.TitleLeTotal | Ambient-Weaver-darwin-x64/Ambient-Weaver.app/Contents/Resources/app/src/modules/playlist_controller/playlist_controller.js:641 | the title order, with missing titles last, is total |
| TitleOrder.TitleLeTransitive | Ambient-Weaver-darwin-x64/Ambient-Weaver.app/Contents/Resources/app/src/modules/playlist_controller/playlist_controller.js:641 | the title order is transitive |
| TitleOrder.TitleLeAntisymmetric | Ambient-Weaver-darwin-x64/Ambient-Weaver.app/Contents/Resources/app/src/modules/playlist_controller/playlist_controller.js:641 | two titles ordered both ways are equal |
| TitleOrder.Insert | Ambient-Weaver-darwin-x64/Ambient-Weaver.app/Contents/Resources/app/src/modules/playlist_controller/playlist_controller.js:641 | inserting into a sorted list gives a sorted list holding one more copy of the title |
| TitleOrder.Sort | Ambient-Weaver-darwin-x64/Ambient-Weaver.app/Contents/Resources/app/src/modules/playlist_controller/playlist_controller.js:641 | the result is sorted and a permutation of the input |
| TitleOrder.SortedUnique | Ambient-Weaver-darwin-x64/Ambient-Weaver.app/Contents/Resources/app/src/modules/playlist_controller/playlist_controller.js:641 | two sorted permutations of the same titles are equal, so the sorted result is determined |
| TitleOrder.SortSorted | Ambient-Weaver-darwin-x64/Ambient-Weaver.app/Contents/Resources/app/src/modules/playlist_controller/playlist_controller.js:641 | sorting an already sorted list changes nothing |
| MapIndex.MapAddedOneSpec | Ambient-Weaver-darwin-x64/Ambient-Weaver.app/Contents/Resources/app/src/modules/playlist_controller/playlist_controller.js:330-338 | adding one title keeps entries consistent and slugs unique, only appends, and leaves a non-empty title found |
| MapIndex.MapsAddedAllSpec | Ambient-Weaver-darwin-x64/Ambient-Weaver.app/Contents/Resources/app/src/modules/playlist_controller/playlist_controller.js:320-329 | adding an array of titles keeps entries consistent and slugs unique, only appends, adds at most one entry per title of the array, and leaves every non-empty one found |
| MapIndex.MapRemovedSingle | Ambient-Weaver-darwin-x64/Ambient-Weaver.app/Contents/Resources/app/src/modules/playlist_controller/playlist_controller.js:346-364 | with unique slugs, removing a found title removes exactly its entry, keeps the others in order, and the title is no longer found |
| MapIndex.MapRemovedKeepsUnique | Ambient-Weaver-darwin-x64/Ambient-Weaver.app/Contents/Resources/app/src/modules/playlist_controller/playlist_controller.js:346-364 | `remove_map` keeps entries consistent and slugs unique |
| MapIndex.MapRemovedSkipsDuplicate | Ambient-Weaver-darwin-x64/Ambient-Weaver.app/Contents/Resources/app/src/modules/playlist_controller/playlist_controller.js:358-363 | of two adjacent entries with the slug, `remove_map` deletes the first and leaves the second |
| MapIndex.MapEditedSpec | Ambient-Weaver-darwin-x64/Ambient-Weaver.app/Contents/Resources/app/src/modules/playlist_controller/playlist_controller.js:372-392 | `edit_map` keeps entries consistent, and slugs unique when the new title's slug is free or the entry's own |
| MapIndex.MapEditedEmpty | Ambient-Weaver-darwin-x64/Ambient-Weaver.app/Contents/Resources/app/src/modules/playlist_controller/playlist_controller.js:372-392 | `edit_map` with a null new title changes nothing, whether or not the entry is found |
| MapIndex.EditMapCanDuplicate | Ambient-Weaver-darwin-x64/Ambient-Weaver.app/Contents/Resources/app/src/modules/playlist_controller/playlist_controller.js:386-391 | `edit_map` does not check the new title: re-titling one entry to another's title leaves two entries with one slug |
| MapIndex.KeyedUpdate | Ambient-Weaver-darwin-x64/Ambient-Weaver.app/Contents/Resources/app/src/modules/playlist_controller/playlist_controller.js:174-178 | re-titling one playlist to a title with a free slug keeps playlists keyed and slugs distinct |
| MapIndex.MirrorsFind | Ambient-Weaver-darwin-x64/Ambient-Weaver.app/Contents/Resources/app/src/modules/playlist_controller/playlist_controller.js:399-414 | in mirroring entries, `get_map` finds a title exactly when some playlist holds its slug, and at that playlist's position |
| MapIndex.MirrorsAdd | Ambient-Weaver-darwin-x64/Ambient-Weaver.app/Contents/Resources/app/src/modules/playlist_controller/playlist_controller.js:85-89 | appending a playlist and adding its entry keeps the index mirroring the playlists |
| MapIndex.MirrorsRemove | Ambient-Weaver-darwin-x64/Ambient-Weaver.app/Contents/Resources/app/src/modules/playlist_controller/playlist_controller.js:127-135 | removing a playlist and its entry keeps the index mirroring the playlists |
| MapIndex.MirrorsEdit | Ambient-Weaver-darwin-x64/Ambient-Weaver.app/Contents/Resources/app/src/modules/playlist_controller/playlist_controller.js:175-177 | re-titling a playlist and its entry keeps the index mirroring the playlists |
| Controller.PlaylistController.constructor | Ambient-Weaver-darwin-x64/Ambient-Weaver.app/Contents/Resources/app/src/modules/playlist_controller/playlist_controller.js:13-32 | empty entries, playlists and track files, the default directory; the state is valid and the index mirrors the playlists |
| Controller.PlaylistController.SetTracksDir | Ambient-Weaver-darwin-x64/Ambient-Weaver.app/Contents/Resources/app/src/modules/playlist_controller/playlist_controller.js:40-56 | accepted exactly for a string other than the current directory (the empty string included), which then becomes the directory; nothing else changes |
| Controller.PlaylistController.GetPlaylist | Ambient-Weaver-darwin-x64/Ambient-Weaver.app/Contents/Resources/app/src/modules/playlist_controller/playlist_controller.js:197-211 | null exactly when the title is empty or no playlist has its slug; otherwise the first playlist with that slug |
| Controller.PlaylistController.GetMap | Ambient-Weaver-darwin-x64/Ambient-Weaver.app/Contents/Resources/app/src/modules/playlist_controller/playlist_controller.js:399-414 | null exactly when the title is empty or no entry has its slug; otherwise the first entry with that slug |
| Controller.PlaylistController.AddMap | Ambient-Weaver-darwin-x64/Ambient-Weaver.app/Contents/Resources/app/src/modules/playlist_controller/playlist_controller.js:313-339 | the entries become `MapsAdded(old, a)`: titles not found are appended in input order; entries stay consistent and distinct |
| Controller.PlaylistController.AddOneMap | Ambient-Weaver-darwin-x64/Ambient-Weaver.app/Contents/Resources/app/src/modules/playlist_controller/playlist_controller.js:330-338 | a title not found is appended as a new entry; a found one changes nothing |
| Controller.PlaylistController.RemoveMap | Ambient-Weaver-darwin-x64/Ambient-Weaver.app/Contents/Resources/app/src/modules/playlist_controller/playlist_controller.js:346-364 | the delete-compact-advance loop leaves exactly `MapRemoved(old, t)`; entries stay consistent and distinct |
| Controller.PlaylistController.RemoveMapStep | Ambient-Weaver-darwin-x64/Ambient-Weaver.app/Contents/Resources/app/src/modules/playlist_controller/playlist_controller.js:358-363 | one turn of the `remove_map` loop keeps what is settled plus the scan of the rest equal to the scan of the starting entries, and never lengthens the list |
| Controller.PlaylistController.DeleteMapAt | Ambient-Weaver-darwin-x64/Ambient-Weaver.app/Contents/Resources/app/src/modules/playlist_controller/playlist_controller.js:360-361 | `delete` then compaction removes exactly the entry at the index and keeps the rest in order |
| Controller.PlaylistController.EditMap | Ambient-Weaver-darwin-x64/Ambient-Weaver.app/Contents/Resources/app/src/modules/playlist_controller/playlist_controller.js:372-392 | a found entry takes the new title; otherwise the new title (or the old one when none is given) goes to `add_map` |
| Controller.PlaylistController.SetMapTitle | Ambient-Weaver-darwin-x64/Ambient-Weaver.app/Contents/Resources/app/src/modules/playlist_controller/playlist_controller.js:386-391 | only the found entry changes, by `set_title`, and entries stay consistent |
| Controller.PlaylistController.GetTitles | Ambient-Weaver-darwin-x64/Ambient-Weaver.app/Contents/Resources/app/src/modules/playlist_controller/playlist_controller.js:630-642 | the titles of the given entries (default: its own) sorted ascending, as a permutation of the input titles |
| Controller.PlaylistController.FilterTrackFiles | Ambient-Weaver-darwin-x64/Ambient-Weaver.app/Contents/Resources/app/src/modules/playlist_controller/playlist_controller.js:594-603 | the filter loop leaves exactly the delete-compact-advance scan of the listing over unplayable names |
| Controller.ReadTracksKeepsSecondUnplayable | Ambient-Weaver-darwin-x64/Ambient-Weaver.app/Contents/Resources/app/src/modules/playlist_controller/playlist_controller.js:594-613 | an unplayable file right after another one survives the filter and is recorded with the empty type |
| Controller.PlaylistController.ReadTracks | Ambient-Weaver-darwin-x64/Ambient-Weaver.app/Contents/Resources/app/src/modules/playlist_controller/playlist_controller.js:570-622 | a read error changes nothing; otherwise the list is rebuilt from the kept names, with their types, exactly when the comparison reports a difference |
| Controller.PlaylistController.AddPlaylist | Ambient-Weaver-darwin-x64/Ambient-Weaver.app/Contents/Resources/app/src/modules/playlist_controller/playlist_controller.js:65-99 | an empty title does nothing; a taken slug does nothing and reports null; otherwise one new playlist is appended and saved, and its entry is added whatever the save reported |
| Controller.PlaylistController.CreatePlaylist | Ambient-Weaver-darwin-x64/Ambient-Weaver.app/Contents/Resources/app/src/modules/playlist_controller/playlist_controller.js:75-94 | the new playlist is appended and saved, then its entry is added; the state stays valid and the index mirroring |
| Controller.PlaylistController.NewSavedPlaylist | Ambient-Weaver-darwin-x64/Ambient-Weaver.app/Contents/Resources/app/src/modules/playlist_controller/playlist_controller.js:81-86 | a fresh playlist is constructed, appended and saved, with the store and callbacks of `SaveStep` |
| Controller.PlaylistController.NewPlaylist | Ambient-Weaver-darwin-x64/Ambient-Weaver.app/Contents/Resources/app/src/modules/playlist_controller/playlist_controller.js:75-85 | a fresh playlist built from the title and config is appended; slugs stay distinct |
| Controller.PlaylistController.AppendPlaylist | Ambient-Weaver-darwin-x64/Ambient-Weaver.app/Contents/Resources/app/src/modules/playlist_controller/playlist_controller.js:85 | the playlist goes at the end, and titles and slugs grow by its own |
| Controller.PlaylistController.SavePlaylist | Ambient-Weaver-darwin-x64/Ambient-Weaver.app/Contents/Resources/app/src/modules/playlist_controller/playlist_controller.js:86 | saving a playlist changes only its pending old slug, so titles, slugs and entries are kept |
| Controller.PlaylistController.RemovePlaylist | Ambient-Weaver-darwin-x64/Ambient-Weaver.app/Contents/Resources/app/src/modules/playlist_controller/playlist_controller.js:107-136 | an empty or unknown title does nothing; otherwise the entry is removed, the playlist with the slug is deleted with its file, and the others keep their order |
| Controller.PlaylistController.RemoveKnown | Ambient-Weaver-darwin-x64/Ambient-Weaver.app/Contents/Resources/app/src/modules/playlist_controller/playlist_controller.js:123-135 | `remove_map` then the playlist scan: the state stays valid and the index mirroring |
| Controller.PlaylistController.DropPlaylist | Ambient-Weaver-darwin-x64/Ambient-Weaver.app/Contents/Resources/app/src/modules/playlist_controller/playlist_controller.js:129-135 | the scan removes exactly the playlist with the slug, deletes its file, and keeps the others in order |
| Controller.PlaylistController.DropPlaylistStep | Ambient-Weaver-darwin-x64/Ambient-Weaver.app/Contents/Resources/app/src/modules/playlist_controller/playlist_controller.js:129-135 | one turn of the `remove_playlist` scan: nothing changes before the playlist with the slug; from it on, exactly that playlist is gone and its file is removed |
| Controller.PlaylistController.DeletePlaylistAt | Ambient-Weaver-darwin-x64/Ambient-Weaver.app/Contents/Resources/app/src/modules/playlist_controller/playlist_controller.js:132-133 | `delete` then compaction removes exactly the playlist at the index; slugs stay distinct |
| Controller.PlaylistController.EditPlaylist | Ambient-Weaver-darwin-x64/Ambient-Weaver.app/Contents/Resources/app/src/modules/playlist_controller/playlist_controller.js:146-189 | an unknown title is added with `new_data`'s own volume and tracks; a known one takes the config and a free new title, reports a taken one, and is saved only when a step ran; no other playlist changes |
| Controller.PlaylistController.EditKnown | Ambient-Weaver-darwin-x64/Ambient-Weaver.app/Contents/Resources/app/src/modules/playlist_controller/playlist_controller.js:163-188 | a known playlist takes the config and title steps and is saved when either ran; its entry is edited exactly when the title step renamed it; no other playlist changes |
| Controller.PlaylistController.EditExisting | Ambient-Weaver-darwin-x64/Ambient-Weaver.app/Contents/Resources/app/src/modules/playlist_controller/playlist_controller.js:163-188 | config step, title step, then one save exactly when either ran; callbacks in order |
| Controller.PlaylistController.TitleStep | Ambient-Weaver-darwin-x64/Ambient-Weaver.app/Contents/Resources/app/src/modules/playlist_controller/playlist_controller.js:174-182 | a new title whose slug any playlist holds, this one included, is reported and not applied; a free or null one is applied and its entry edited |
| Controller.PlaylistController.ReconfigurePlaylist | Ambient-Weaver-darwin-x64/Ambient-Weaver.app/Contents/Resources/app/src/modules/playlist_controller/playlist_controller.js:168-171 | only the playlist's config changes; titles, slugs and entries are kept |
| Controller.PlaylistController.RetitlePlaylist | Ambient-Weaver-darwin-x64/Ambient-Weaver.app/Contents/Resources/app/src/modules/playlist_controller/playlist_controller.js:176-177 | the playlist is re-titled and its entry goes through `edit_map`; the state stays valid |
| Controller.PlaylistController.EditEntryOf | Ambient-Weaver-darwin-x64/Ambient-Weaver.app/Contents/Resources/app/src/modules/playlist_controller/playlist_controller.js:177 | `edit_map` changes the entries only, never a playlist |
| Controller.PlaylistController.RenamePlaylist | Ambient-Weaver-darwin-x64/Ambient-Weaver.app/Contents/Resources/app/src/modules/playlist_controller/playlist_controller.js:176 | `set_title` with a free title updates that playlist's title and slug only; playlists stay keyed with distinct slugs |

## Left out

- Real file-system calls and the callback chains around them are not
  modelled. This covers `read_playlist`, `init_playlists`, `init_maps`,
  `read_maps`, `save_maps`, `init_tracks` (with its directory watcher) and
  `Playlist.read`. Only the decisions of `save` and `remove` are modelled,
  over an abstract store.
- Callback timing is not modelled, nor the interleaving of overlapping saves.
  Each `save` and `remove` runs to completion inside the operation that
  starts it.
- JSON encoding and decoding, and the throws of `JSON.parse`, are not
  modelled. A stored file holds the playlist value itself.
- The internals of `utils` (`slug`, `valid_file_type`, `eq`, `arr_vals`,
  `data_dir`) are not part of this model. `Slug` and `ValidFileType` are
  uninterpreted.
- View updates and the UI modules are not modelled.
- The runtime type guards (`is_valid_track_array`,
  `is_valid_playlist_array`, `instanceof` checks on arguments) are not
  modelled; Dafny's types make them hold.
- Option values are JavaScript numbers that are only compared with 0 and 1.
  They are modelled as `real`, with no floating-point arithmetic.
- Tracks.Track.SetLoop: values that are neither boolean, `undefined` nor
  `null` cannot be expressed, so the source's rejection of them is not
  modelled.
- Tracks.Track.SetSrc: a `null` directory is not modelled; the source would
  build the path "null/" + title.
- Configs.Config.AddTrack: takes the directory explicitly. The source's
  fallback to the global `window.controller.tracks_dir` for an undefined
  directory is not modelled.
- Configs.Config.constructor:
  - A raw record without a title cannot be expressed. The source throws at
    config.js:28 for such a record when it has a path.
  - A record is skipped when its title is the literal text "undefined", as
    the source's comparison does.
  - A `null` `tracks` argument cannot be expressed (`None` means undefined).
    The source lets it through the check at config.js:23 and throws on its
    `length` at config.js:24.
  - A `null` element of `tracks` cannot be expressed either; the source
    throws on it at config.js:25.
- Playlists.Playlist.constructor: only the object form of the argument is
  modelled. The string form is the same as an object with only that title.
- Playlists.Playlist.Remove: the source logs the error when no callback is
  given. The model always returns it.
- Controller.PlaylistController.RemovePlaylist: the index save that the
  deletion's callback triggers is not part of this model. The error that
  callback receives is dropped, as in the source.
- Controller.PlaylistController.EditPlaylist:
  - The source replaces `new_data` by `null` when `new_data.config` is the
    literal text "undefined"; configs are records here, so that case cannot
    be expressed.
  - A `null` `new_data`, on which the source throws, is not modelled.
- Controller.PlaylistController.ReadTracks:
  - The directory listing comes in as a parameter, `None` for a read error.
    The `path` argument, the callback and the view update are not modelled.
  - The change test follows the source's `utils.eq` of track records against
    file names, taken as value equality. So it reports no change only when
    both lists are empty.
- Controller.PlaylistController.GetTitles: titles are compared character by
  character. JavaScript compares UTF-16 code units, which can order
  characters outside the basic plane differently.
- Controller.PlaylistController.AddPlaylist: the index write after the save
  (`save_maps`) is not modelled, so a partial commit between the two files is
  out of scope.
