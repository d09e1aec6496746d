/** An index entry of the playlist manager: a playlist's title and the slug
    its file is keyed by. An entry built from a missing or empty title has
    neither field set. */
module PlaylistMaps {
  import opened Utils

  /** The value of an entry; `None` stands for a field that was never set. */
  datatype MapValue = MapValue(title: Option<string>, slug: Option<string>)

  /** The entry `new Playlist_Map()` holds before its title is set. */
  const Unset := MapValue(None, None)

  /** Either both fields are unset, or the title is non-empty and the slug is its slug. */
  predicate Consistent(m: MapValue) {
    (m.title.None? && m.slug.None?)
    || (m.title.Some? && m.title.value != "" && m.slug == Some(Slug(m.title.value)))
  }

  /** The entry after `set_title(t)`: an empty title is rejected. */
  function Titled(m: MapValue, t: string): MapValue {
    if t == "" then m else MapValue(Some(t), Some(Slug(t)))
  }

  class PlaylistMap {
    var title: Option<string>
    var slug: Option<string>

    function Value(): MapValue
      reads this
    {
      MapValue(title, slug)
    }

    constructor (t: string)
      ensures Value() == Titled(Unset, t)
    {
      title := None;
      slug := None;
      new;
      SetTitle(t);
    }

    method SetTitle(t: string)
      modifies this
      ensures Value() == Titled(old(Value()), t)
    {
      if t == "" {
        return;
      }
      title := Some(t);
      slug := Some(Slug(t));
    }
  }

  /** A new entry is consistent: set from a non-empty title, unset otherwise. */
  lemma NewEntry(t: string)
    ensures Consistent(Titled(Unset, t))
    ensures t != "" <==> Titled(Unset, t).title == Some(t)
    ensures t == "" <==> Titled(Unset, t) == Unset
  {
  }

  /** `set_title` keeps an entry consistent, and a successful one leaves the
      slug of the new title. */
  lemma TitledConsistent(m: MapValue, t: string)
    requires Consistent(m)
    ensures Consistent(Titled(m, t))
    ensures Titled(m, t).title.Some? ==> Titled(m, t).slug == Some(Slug(Titled(m, t).title.value))
  {
  }

  /** Setting the same title twice is the same as setting it once. */
  lemma TitledIdempotent(m: MapValue, t: string)
    ensures Titled(Titled(m, t), t) == Titled(m, t)
  {
  }
}
