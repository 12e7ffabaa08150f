/** The playlist cursor of src/fancy-player.mjs: the track list, the
    position `#i` in it, and the parts of the inner player it touches
    (`currentTime`, `paused` and the `songid` attribute). */
module Playlist {
  import opened Wrappers

  /** The cursor and the inner player's state; `songid` is `None` until the
      attribute is first set. */
  datatype Cursor = Cursor(tracks: seq<string>, i: int, currentTime: real, paused: bool, songid: Option<string>)

  /** A step back more than ten seconds into a track restarts it. */
  predicate Restarts(s: Cursor, dir: int) {
    dir == -1 && s.currentTime > 10.0
  }

  /** `switch_track(dir)`. */
  function Switched(s: Cursor, dir: int): (r: Cursor)
    ensures r.tracks == s.tracks
  {
    if Restarts(s, dir) then s.(currentTime := 0.0)
    else
      var n := s.i + dir;
      var i := if n < 0 then 0 else if n >= |s.tracks| then 0 else n;
      var paused := if 0 <= n && n >= |s.tracks| then true else s.paused;
      var songid := if 0 <= i < |s.tracks| && s.tracks[i] != "" then Some(s.tracks[i]) else s.songid;
      s.(i := i, paused := paused, songid := songid)
  }

  /** `#i` is an index of the list, or 0 when the list is empty. */
  predicate InRange(s: Cursor) {
    0 <= s.i && (s.i < |s.tracks| || s.i == 0)
  }

  /** Restarting only rewinds: the position, the list, the pause state and
      the attribute stay as they were. */
  lemma SwitchedRestart(s: Cursor, dir: int)
    requires Restarts(s, dir)
    ensures var r := Switched(s, dir);
      r.currentTime == 0.0 && r.i == s.i && r.paused == s.paused && r.songid == s.songid
  {
  }

  /** Outside a restart: a step below the start clamps to the first track;
      a step past the end wraps to the first track and pauses; any other
      step moves by `dir`.  The playback position is kept. */
  lemma SwitchedMoves(s: Cursor, dir: int)
    requires !Restarts(s, dir)
    ensures var r := Switched(s, dir);
      && r.currentTime == s.currentTime
      && (s.i + dir < 0 ==> r.i == 0 && r.paused == s.paused)
      && (0 <= s.i + dir < |s.tracks| ==> r.i == s.i + dir && r.paused == s.paused)
      && (0 <= s.i + dir && s.i + dir >= |s.tracks| ==> r.i == 0 && r.paused)
  {
  }

  /** Outside a restart the new position is an index of a non-empty list
      and 0 for an empty one, whatever the old position was. */
  lemma SwitchedInRange(s: Cursor, dir: int)
    requires !Restarts(s, dir)
    ensures var r := Switched(s, dir);
      && (|s.tracks| > 0 ==> 0 <= r.i < |s.tracks|)
      && (|s.tracks| == 0 ==> r.i == 0 && r.songid == s.songid)
  {
  }

  /** Every call keeps the cursor in range. */
  lemma SwitchedKeepsRange(s: Cursor, dir: int)
    requires InRange(s)
    ensures InRange(Switched(s, dir))
  {
  }

  /** The attribute is set only to the entry under the new position, and
      only when that entry is a non-empty string. */
  lemma SwitchedSongid(s: Cursor, dir: int)
    ensures var r := Switched(s, dir);
      && (r.songid != s.songid ==> 0 <= r.i < |s.tracks| && s.tracks[r.i] != "" && r.songid == Some(s.tracks[r.i]))
      && (!Restarts(s, dir) && 0 <= r.i < |s.tracks| && s.tracks[r.i] != "" ==> r.songid == Some(s.tracks[r.i]))
  {
  }

  /** `k` steps forward, as the 'ended' event and the next buttons do. */
  function Advance(s: Cursor, k: nat): Cursor {
    if k == 0 then s else Switched(Advance(s, k - 1), 1)
  }

  /** From the first track, stepping forward visits the tracks in order,
      the play state untouched, and one step past the last wraps to the
      first and pauses. */
  lemma {:induction false} AdvanceVisits(s: Cursor, k: nat)
    requires s.i == 0 && k < |s.tracks|
    ensures Advance(s, k).i == k && Advance(s, k).paused == s.paused && Advance(s, k).tracks == s.tracks
    ensures var w := Switched(Advance(s, k), 1);
      k == |s.tracks| - 1 ==> w.i == 0 && w.paused
  {
    if k > 0 {
      AdvanceVisits(s, k - 1);
    }
  }

  // ---------------------------------------------------------------- loading a page

  /** `v?.track?.id` of a playlist item, as far as `typeof t == 'string'` tells. */
  datatype TrackId = StringId(id: string) | NotAString

  /** The outcome of `load_tracks` reading the page: not a playlist page,
      the items of the playlist's first page, or a playlist request or
      parse that fails. */
  datatype Page = OtherPage | PlaylistPage(items: seq<TrackId>) | Unavailable

  /** The string ids of the items, in item order. */
  function TrackIds(items: seq<TrackId>): (r: seq<string>)
    ensures |r| <= |items|
    ensures forall t :: t in r <==> StringId(t) in items
  {
    if items == [] then []
    else
      var rest := TrackIds(items[1..]);
      assert forall x :: x in items <==> x == items[0] || x in items[1..];
      (if items[0].StringId? then [items[0].id] else []) + rest
  }

  lemma {:induction false} TrackIdsAppend(a: seq<TrackId>, b: seq<TrackId>)
    ensures TrackIds(a + b) == TrackIds(a) + TrackIds(b)
  {
    if a == [] {
      assert a + b == b;
    } else {
      assert (a + b)[1..] == a[1..] + b;
      TrackIdsAppend(a[1..], b);
    }
  }

  /** `load_tracks`: a playlist page replaces the list; any page that loads
      resets the position and switches to the first track. */
  function Loaded(s: Cursor, page: Page): (r: Cursor)
    ensures page.Unavailable? ==> r == s
    ensures page.OtherPage? ==> r.tracks == s.tracks
    ensures page.PlaylistPage? ==> r.tracks == TrackIds(page.items)
    ensures !page.Unavailable? ==> r.i == 0 && r.currentTime == s.currentTime
  {
    match page
    case Unavailable => s
    case OtherPage => Switched(s.(i := 0), 0)
    case PlaylistPage(items) => Switched(s.(tracks := TrackIds(items), i := 0), 0)
  }

  /** After a playlist loads, the list holds its string ids, the position is
      the first track, the first id is requested when it is non-empty, and
      an empty playlist pauses the player. */
  lemma LoadedPlaylist(s: Cursor, items: seq<TrackId>)
    ensures var r := Loaded(s, PlaylistPage(items));
      var ids := TrackIds(items);
      && r.tracks == ids && r.i == 0 && InRange(r) && r.currentTime == s.currentTime
      && (ids != [] && ids[0] != "" ==> r.songid == Some(ids[0]))
      && (ids != [] && ids[0] == "" ==> r.songid == s.songid)
      && (ids == [] ==> r.paused && r.songid == s.songid)
      && (ids != [] ==> r.paused == s.paused)
  {
  }

  /** Loading any other page keeps the list and goes back to its first track. */
  lemma LoadedOther(s: Cursor)
    ensures var r := Loaded(s, OtherPage);
      && r.tracks == s.tracks && r.i == 0 && InRange(r)
      && (s.tracks != [] && s.tracks[0] != "" ==> r.songid == Some(s.tracks[0]))
  {
  }

  // ---------------------------------------------------------------- the element

  /** The controls that move the cursor: the inner player's 'ended' event,
      the next and previous buttons, and the media session's next and
      previous actions. */
  datatype Control = Ended | NextButton | PreviousButton | NextTrackAction | PreviousTrackAction

  function Direction(c: Control): int {
    match c
    case Ended => 1
    case NextButton => 1
    case NextTrackAction => 1
    case PreviousButton => -1
    case PreviousTrackAction => -1
  }

  class FancyPlayer {
    var tracks: seq<string>
    var i: int
    var currentTime: real
    var paused: bool
    var songid: Option<string>

    function State(): Cursor
      reads this
    {
      Cursor(tracks, i, currentTime, paused, songid)
    }

    predicate Valid()
      reads this
    {
      InRange(State())
    }

    /** The field initialisers `#tracks = []` and `#i = 0`, on a fresh,
        paused inner player with no `songid`. */
    constructor()
      ensures Valid() && State() == Cursor([], 0, 0.0, true, None)
    {
      tracks := [];
      i := 0;
      currentTime := 0.0;
      paused := true;
      songid := None;
    }

    method SwitchTrack(dir: int)
      requires Valid()
      modifies this
      ensures Valid() && State() == Switched(old(State()), dir)
    {
      var newI := i + dir;
      if dir == -1 && currentTime > 10.0 {
        currentTime := 0.0;
        return;
      } else if newI < 0 {
        i := 0;
      } else if newI >= |tracks| {
        i := 0;
        paused := true;
      } else {
        i := newI;
      }
      if 0 <= i < |tracks| && tracks[i] != "" {
        songid := Some(tracks[i]);
      }
    }

    /** `load_tracks(url)`; `ok` is false when the playlist request rejects,
        which leaves everything as it was. */
    method LoadTracks(page: Page) returns (ok: bool)
      requires Valid()
      modifies this
      ensures Valid() && ok == !page.Unavailable? && State() == Loaded(old(State()), page)
    {
      if page.Unavailable? {
        return false;
      }
      if page.PlaylistPage? {
        tracks := TrackIds(page.items);
      }
      i := 0;
      SwitchTrack(0);
      return true;
    }

    /** The listeners that call `switch_track`. */
    method OnControl(c: Control)
      requires Valid()
      modifies this
      ensures Valid() && State() == Switched(old(State()), Direction(c))
    {
      SwitchTrack(Direction(c));
    }
  }
}
