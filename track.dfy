/** One audio file of a playlist: its title, the file type read off the title,
    the path it is played from, and six playback options, each guarded by a
    setter that silently rejects an invalid value. */
module Tracks {
  import opened Utils

  datatype Options = Options(
    volume: real,
    loop: bool,
    delay: real,
    duration: real,
    startPoint: real,
    endPoint: real)

  /** The options a new track starts from. */
  const Defaults := Options(1.0, true, 20.0, 0.0, 0.0, 0.0)

  /** What the setters let through: a volume in [0,1], non-negative times. */
  predicate ValidOptions(o: Options) {
    0.0 <= o.volume <= 1.0 && o.delay >= 0.0 && o.duration >= 0.0
    && o.startPoint >= 0.0 && o.endPoint >= 0.0
  }

  /** An options object as a caller hands it over; any field may be missing or null. */
  datatype RawOptions = RawOptions(
    volume: Arg<real>,
    loop: Arg<bool>,
    delay: Arg<real>,
    duration: Arg<real>,
    startPoint: Arg<real>,
    endPoint: Arg<real>)

  /** The value of a track, as it is written to a playlist file. */
  datatype TrackValue = TrackValue(title: string, fileType: string, src: string, options: Options)

  predicate AcceptsVolume(a: Arg<real>) { a.Val? && 0.0 <= a.v <= 1.0 }

  predicate AcceptsTime(a: Arg<real>) { a.Val? && a.v >= 0.0 }

  /** The volume a setter leaves when handed `a` while holding `current`. */
  function KeptVolume(a: Arg<real>, current: real): real {
    if AcceptsVolume(a) then a.v else current
  }

  /** The time a non-negative setter leaves when handed `a` while holding `current`. */
  function KeptTime(a: Arg<real>, current: real): real {
    if AcceptsTime(a) then a.v else current
  }

  /** The flag `set_loop` leaves when handed `a` while holding `current`. */
  function KeptFlag(a: Arg<bool>, current: bool): bool {
    if a.Val? then a.v else current
  }

  /** The text after the last '.', or `None` when the title has no '.'. */
  function AfterLastDot(t: string): Option<string> {
    if t == [] then None
    else if t[|t| - 1] == '.' then Some("")
    else match AfterLastDot(t[..|t| - 1])
      case None => None
      case Some(s) => Some(s + [t[|t| - 1]])
  }

  /** The file type `set_title` derives with the pattern `\.([^.]+)$`. */
  function FileType(title: string): string {
    AfterLastDot(title).GetOr("")
  }

  /** `AfterLastDot` finds the suffix that follows the last '.'. */
  lemma {:induction false} AfterLastDotSpec(t: string)
    ensures AfterLastDot(t).None? <==> '.' !in t
    ensures AfterLastDot(t).Some? ==>
              var r := AfterLastDot(t).value;
              '.' !in r && |r| < |t| && t[|t| - |r| - 1] == '.' && t[|t| - |r|..] == r
  {
    if t != [] && t[|t| - 1] != '.' {
      var u := t[..|t| - 1];
      AfterLastDotSpec(u);
      assert t == u + [t[|t| - 1]];
      if AfterLastDot(u).Some? {
        var s := AfterLastDot(u).value;
        assert t[|t| - |s| - 1..] == u[|u| - |s|..] + [t[|t| - 1]];
      }
    }
  }

  /** The file type is the non-empty run of non-dot characters that ends the
      title right after a '.', and "" exactly when there is no such run. */
  lemma FileTypeSpec(title: string)
    ensures '.' !in FileType(title)
    ensures var r := FileType(title);
            r != "" ==> |r| < |title| && title[|title| - |r| - 1] == '.' && title[|title| - |r|..] == r
    ensures FileType(title) == "" <==> '.' !in title || title[|title| - 1] == '.'
  {
    AfterLastDotSpec(title);
    if title != [] && title[|title| - 1] != '.' && '.' in title {
      var u := title[..|title| - 1];
      assert title == u + [title[|title| - 1]];
      assert '.' in u;
      AfterLastDotSpec(u);
    }
  }

  /** The options after one `set_options(raw)`, field by field: a field that is
      present is stored when its setter accepts it; an absent `end_point` is
      taken from `duration` under the same check. */
  function Applied(o: Options, raw: Arg<RawOptions>): (r: Options)
    ensures ValidOptions(o) ==> ValidOptions(r)
    ensures !raw.Val? ==> r == o
  {
    match raw
    case Val(x) =>
      Options(
        KeptVolume(x.volume, o.volume),
        KeptFlag(x.loop, o.loop),
        KeptTime(x.delay, o.delay),
        KeptTime(x.duration, o.duration),
        KeptTime(x.startPoint, o.startPoint),
        KeptTime(if x.endPoint.Undefined? then x.duration else x.endPoint, o.endPoint))
    case _ => o
  }

  /** The track value after `set_title(t)`. */
  function Retitled(v: TrackValue, t: string): TrackValue {
    if t == "" then v else v.(title := t, fileType := FileType(t))
  }

  /** The path `set_src(dir)` builds. */
  function SrcFor(dir: string, title: string): string {
    if dir == "" then "" else dir + "/" + title
  }

  /** The track `new Track(title, dir, raw)` builds: defaults, then title, options and src. */
  function Created(title: string, dir: string, raw: Arg<RawOptions>): TrackValue {
    TrackValue(title, FileType(title), SrcFor(dir, title), Applied(Defaults, raw))
  }

  /** An options record written out in full, as a stored playlist holds it. */
  function RawOf(o: Options): RawOptions {
    RawOptions(Val(o.volume), Val(o.loop), Val(o.delay), Val(o.duration), Val(o.startPoint), Val(o.endPoint))
  }

  /** A well-formed track value: a title, its own file type, valid options. */
  predicate WellFormed(v: TrackValue) {
    v.title != "" && v.fileType == FileType(v.title) && ValidOptions(v.options)
  }

  class Track {
    var title: string
    var fileType: string
    var src: string
    var options: Options

    function Value(): TrackValue
      reads this
    {
      TrackValue(title, fileType, src, options)
    }

    /** The invariant every setter keeps. */
    ghost predicate Valid()
      reads this
    {
      fileType == FileType(title) && ValidOptions(options)
    }

    constructor (title: string, srcDir: string, raw: Arg<RawOptions>)
      ensures Valid()
      ensures Value() == Created(title, srcDir, raw)
    {
      this.title := "";
      fileType := "";
      src := "";
      options := Defaults;
      new;
      SetTitle(title);
      SetOptions(raw);
      SetSrc(srcDir);
    }

    method SetTitle(t: string)
      modifies this
      ensures Value() == Retitled(old(Value()), t)
      ensures old(Valid()) ==> Valid()
    {
      if t == "" {
        return;
      }
      title := t;
      fileType := FileType(t);
    }

    /** Applies each present field through its own setter. */
    method SetOptions(raw: Arg<RawOptions>)
      modifies this
      ensures options == Applied(old(options), raw)
      ensures title == old(title) && fileType == old(fileType) && src == old(src)
    {
      if raw.Val? {
        var x := raw.v;
        if !x.volume.Undefined? {
          SetVolume(x.volume);
        }
        if !x.loop.Undefined? {
          SetLoop(x.loop);
        }
        if !x.delay.Undefined? {
          SetDelay(x.delay);
        }
        if !x.duration.Undefined? {
          SetDuration(x.duration);
        }
        if !x.startPoint.Undefined? {
          SetStartPoint(x.startPoint);
        }
        if !x.endPoint.Undefined? {
          SetEndPoint(x.endPoint);
        } else if !x.duration.Undefined? {
          SetEndPoint(x.duration);
        }
      }
    }

    method SetVolume(a: Arg<real>)
      modifies this
      ensures options == old(options).(volume := KeptVolume(a, old(options).volume))
      ensures title == old(title) && fileType == old(fileType) && src == old(src)
    {
      if !AcceptsVolume(a) {
        return;
      }
      options := options.(volume := a.v);
    }

    method SetLoop(a: Arg<bool>)
      modifies this
      ensures options == old(options).(loop := KeptFlag(a, old(options).loop))
      ensures title == old(title) && fileType == old(fileType) && src == old(src)
    {
      if !a.Val? {
        return;
      }
      options := options.(loop := a.v);
    }

    method SetDelay(a: Arg<real>)
      modifies this
      ensures options == old(options).(delay := KeptTime(a, old(options).delay))
      ensures title == old(title) && fileType == old(fileType) && src == old(src)
    {
      if !AcceptsTime(a) {
        return;
      }
      options := options.(delay := a.v);
    }

    method SetDuration(a: Arg<real>)
      modifies this
      ensures options == old(options).(duration := KeptTime(a, old(options).duration))
      ensures title == old(title) && fileType == old(fileType) && src == old(src)
    {
      if !AcceptsTime(a) {
        return;
      }
      options := options.(duration := a.v);
    }

    method SetStartPoint(a: Arg<real>)
      modifies this
      ensures options == old(options).(startPoint := KeptTime(a, old(options).startPoint))
      ensures title == old(title) && fileType == old(fileType) && src == old(src)
    {
      if !AcceptsTime(a) {
        return;
      }
      options := options.(startPoint := a.v);
    }

    method SetEndPoint(a: Arg<real>)
      modifies this
      ensures options == old(options).(endPoint := KeptTime(a, old(options).endPoint))
      ensures title == old(title) && fileType == old(fileType) && src == old(src)
    {
      if !AcceptsTime(a) {
        return;
      }
      options := options.(endPoint := a.v);
    }

    method SetSrc(dir: string)
      modifies this
      ensures Value() == old(Value()).(src := if dir == "" then old(src) else SrcFor(dir, title))
    {
      if dir == "" {
        return;
      }
      src := dir + "/" + title;
    }
  }

  /** A new track starts from the defaults: with no title, options or
      directory it is exactly the default record. */
  lemma CreatedFromDefaults()
    ensures Created("", "", Undefined) == TrackValue("", "", "", Defaults)
    ensures ValidOptions(Defaults)
  {
  }

  /** Setting the same options twice is the same as setting them once. */
  lemma AppliedIdempotent(o: Options, raw: Arg<RawOptions>)
    ensures Applied(Applied(o, raw), raw) == Applied(o, raw)
  {
  }

  /** Absent option fields keep their values; `end_point` is the one field an
      absent value can still change, through a present `duration`. */
  lemma AppliedAbsentFields(o: Options, x: RawOptions)
    ensures x.volume.Undefined? ==> Applied(o, Val(x)).volume == o.volume
    ensures x.loop.Undefined? ==> Applied(o, Val(x)).loop == o.loop
    ensures x.delay.Undefined? ==> Applied(o, Val(x)).delay == o.delay
    ensures x.duration.Undefined? ==> Applied(o, Val(x)).duration == o.duration
    ensures x.startPoint.Undefined? ==> Applied(o, Val(x)).startPoint == o.startPoint
    ensures x.endPoint.Undefined? && !AcceptsTime(x.duration) ==> Applied(o, Val(x)).endPoint == o.endPoint
    ensures x.endPoint.Undefined? && AcceptsTime(x.duration) ==> Applied(o, Val(x)).endPoint == x.duration.v
  {
  }

  /** Writing a valid options record out in full and applying it to the
      defaults gives the record back. */
  lemma AppliedRawOf(o: Options)
    requires ValidOptions(o)
    ensures Applied(Defaults, Val(RawOf(o))) == o
  {
  }

  /** `set_title` with a non-empty title derives the type from the title alone. */
  lemma {:induction false} FileTypeExamples()
    ensures FileType("song.mp3") == "mp3"
    ensures FileType("archive.tar.ogg") == "ogg"
    ensures FileType("noext") == ""
    ensures FileType("dot.") == ""
  {
    assert "song.mp3"[..7] == "song.mp";
    assert "song.mp"[..6] == "song.m";
    assert "song.m"[..5] == "song.";
    assert "archive.tar.ogg"[..14] == "archive.tar.og";
    assert "archive.tar.og"[..13] == "archive.tar.o";
    assert "archive.tar.o"[..12] == "archive.tar.";
    AfterLastDotSpec("noext");
  }
}
