/**
 The music player example's track library: the scan of the card's music
 directory for `.mp3` files, and the look-ups the player's list asks for a
 track's title, artist, genre and length.

 The two 256-slot tables of the scan are modelled: `Mp3Path` as the list
 of paths, `Mp3Filename` as a sequence of slots that can also hold a NULL
 pointer or a buffer that was allocated but never written, because the
 title look-up can reach one slot past the scanned tracks.
 */
module MusicLibrary {
  import opened Optional
  import opened FileNames

  const TABLE_SLOTS: nat := 256
  const MUSIC_DIR: string := "/sdcard/music"
  const SUFFIX: string := ".mp3"
  /** The longest file name a directory entry holds. */
  const NAME_MAX: nat := 255

  /** What an `Mp3Filename` slot points at. */
  datatype TitleSlot = NoTitle | Unwritten | Title(name: string)

  /** The outcome of the two `malloc` calls made for an accepted file:
      the title buffer, then the path buffer. */
  datatype Alloc = Allocated | TitleFailed | PathFailed | BothFailed

  /** The title stored for a file: its name without the four-character
      extension (the scan copies the name and cuts it there). */
  function StripExtension(name: string): (title: string)
    requires |name| > |SUFFIX|
    ensures title + name[|name| - |SUFFIX|..] == name
    ensures |title| == |name| - |SUFFIX|
  {
    name[..|name| - |SUFFIX|]
  }

  /** The slot the title buffer leaves behind when the scan stops at a
      failed allocation: NULL when the title buffer was not obtained, an
      unwritten buffer when only the path buffer failed. */
  function LeftBehind(a: Alloc): (s: TitleSlot)
    requires a != Allocated
    ensures s == Unwritten <==> a == PathFailed
    ensures s.NoTitle? <==> a != PathFailed
  {
    if a == PathFailed then Unwritten else NoTitle
  }

  /** `list_files`: `dir` is the directory's entries in `readdir` order, or
      `None` when it cannot be opened (nothing changes then); `alloc` gives
      the allocation outcome for each accepted file. Files are taken in
      order until an allocation fails; the count is the number taken, as a
      `uint8_t`. The failing file's title slot is left as the allocation
      left it; the slots after it are not touched.

      A 257th accepted file, reached with all 256 slots filled, has its two
      buffers stored one past the end of both tables, which is undefined
      behaviour: the scan reports `overflow` there and stops, holding the
      256 files taken so far. */
  method ListFiles(base: string, dir: Option<seq<string>>, alloc: seq<Alloc>, slots: seq<TitleSlot>, previousCount: nat)
    returns (titles: seq<string>, paths: seq<string>, count: nat, slots': seq<TitleSlot>, overflow: bool)
    requires |slots| == TABLE_SLOTS && previousCount < 256
    requires dir.Some? ==> |alloc| == |Matching(dir.value, SUFFIX)|
    requires dir.Some? ==> forall n :: n in dir.value ==> |n| <= NAME_MAX
    ensures count < 256 && |slots'| == TABLE_SLOTS
    ensures overflow <==>
      dir.Some? && |Matching(dir.value, SUFFIX)| > TABLE_SLOTS
      && forall j :: 0 <= j < TABLE_SLOTS ==> alloc[j] == Allocated
    ensures dir.None? ==> titles == [] && paths == [] && count == previousCount && slots' == slots
    ensures dir.Some? ==>
      var m := Matching(dir.value, SUFFIX);
      && |titles| == |paths| <= |m|
      && |titles| <= TABLE_SLOTS
      && (overflow ==> |titles| == TABLE_SLOTS)
      && count == |titles| % 256
      && (forall j :: 0 <= j < |titles| ==> alloc[j] == Allocated)
      && (!overflow && |titles| < |m| ==> alloc[|titles|] != Allocated)
      && (forall j :: 0 <= j < |titles| ==> titles[j] == StripExtension(m[j]) && paths[j] == JoinPath(base, m[j]))
      && (forall j :: 0 <= j < |titles| ==> slots'[j] == Title(titles[j]))
      && (!overflow && |titles| < |m| ==> slots'[|titles|] == LeftBehind(alloc[|titles|]))
      && (forall j :: |titles| < j < TABLE_SLOTS ==> slots'[j] == slots[j])
      && (|titles| == |m| && |m| < TABLE_SLOTS ==> slots'[|m|] == slots[|m|])
  {
    if dir.None? {
      return [], [], previousCount, slots, false;
    }
    var stopped;
    titles, paths, stopped, overflow := TakeFiles(base, dir.value, alloc);
    slots' := Stored(slots, titles, if stopped then Some(alloc[|titles|]) else None);
    count := |titles| % 256;
  }

  /** The scan's loop: accepted files are taken in order until one's
      allocation fails (`stopped`) or one arrives with every slot filled
      (`overflow`). */
  method TakeFiles(base: string, entries: seq<string>, alloc: seq<Alloc>)
    returns (titles: seq<string>, paths: seq<string>, stopped: bool, overflow: bool)
    requires |alloc| == |Matching(entries, SUFFIX)|
    ensures |titles| == |paths| <= |Matching(entries, SUFFIX)| && |titles| <= TABLE_SLOTS
    ensures !(stopped && overflow)
    ensures stopped ==> |titles| < TABLE_SLOTS && |titles| < |Matching(entries, SUFFIX)| && alloc[|titles|] != Allocated
    ensures overflow ==> |titles| == TABLE_SLOTS < |Matching(entries, SUFFIX)|
    ensures !stopped && !overflow ==> |titles| == |Matching(entries, SUFFIX)|
    ensures forall j :: 0 <= j < |titles| ==> alloc[j] == Allocated
    ensures forall j :: 0 <= j < |titles| ==>
      titles[j] == StripExtension(Matching(entries, SUFFIX)[j]) && paths[j] == JoinPath(base, Matching(entries, SUFFIX)[j])
  {
    ghost var m := Matching(entries, SUFFIX);
    ghost var accepted: nat := 0;
    titles, paths := [], [];
    var n := 0;
    stopped, overflow := false, false;
    while n < |entries| && !stopped && !overflow
      invariant n <= |entries|
      invariant accepted == |Matching(entries[..n], SUFFIX)| <= |m| == |alloc|
      invariant |titles| == |paths| <= accepted && |titles| <= TABLE_SLOTS
      invariant !(stopped && overflow)
      invariant !stopped && !overflow ==> |titles| == accepted
      invariant stopped ==> |titles| < TABLE_SLOTS && |titles| < |m| && alloc[|titles|] != Allocated
      invariant overflow ==> |titles| == TABLE_SLOTS < accepted
      invariant forall j :: 0 <= j < |titles| ==> alloc[j] == Allocated
      invariant forall j :: 0 <= j < |titles| ==> titles[j] == StripExtension(m[j]) && paths[j] == JoinPath(base, m[j])
    {
      var name := entries[n];
      NextAccepted(entries, n);
      if HasSuffix(name, SUFFIX) {
        var i := |titles|;
        if i == TABLE_SLOTS {
          overflow := true;
        } else if alloc[i] != Allocated {
          stopped := true;
        } else {
          titles := titles + [StripExtension(name)];
          paths := paths + [JoinPath(base, name)];
        }
        accepted := accepted + 1;
      }
      n := n + 1;
    }
    if !stopped && !overflow {
      assert entries[..n] == entries;
    }
  }

  /** The entry the scan reaches next is the next accepted name, if it
      passes the test. */
  lemma NextAccepted(entries: seq<string>, n: nat)
    requires n < |entries|
    ensures HasSuffix(entries[n], SUFFIX) ==> |Matching(entries[..n + 1], SUFFIX)| == |Matching(entries[..n], SUFFIX)| + 1
    ensures !HasSuffix(entries[n], SUFFIX) ==> |Matching(entries[..n + 1], SUFFIX)| == |Matching(entries[..n], SUFFIX)|
    ensures |Matching(entries[..n + 1], SUFFIX)| <= |Matching(entries, SUFFIX)|
    ensures HasSuffix(entries[n], SUFFIX) ==>
      Matching(entries, SUFFIX)[|Matching(entries[..n], SUFFIX)|] == entries[n]
  {
    MatchingStep(entries, n, SUFFIX);
    MatchingPrefixOf(entries, n + 1, SUFFIX);
    var before := Matching(entries[..n], SUFFIX);
    if HasSuffix(entries[n], SUFFIX) {
      assert Matching(entries[..n + 1], SUFFIX)[|before|] == entries[n];
    }
  }

  /** The title table after the scan: the taken titles in order, then what
      the failed allocation left (`failed`), then the old contents. */
  function Stored(slots: seq<TitleSlot>, titles: seq<string>, failed: Option<Alloc>): (s: seq<TitleSlot>)
    requires |titles| < |slots| || (|titles| == |slots| && failed.None?)
    requires failed.Some? ==> failed.value != Allocated
    ensures |s| == |slots|
    ensures forall j :: 0 <= j < |titles| ==> s[j] == Title(titles[j])
    ensures failed.Some? ==> s[|titles|] == LeftBehind(failed.value)
    ensures failed.None? && |titles| < |slots| ==> s[|titles|] == slots[|titles|]
    ensures forall j :: |titles| < j < |slots| ==> s[j] == slots[j]
  {
    seq(|slots|, j requires 0 <= j < |slots| =>
      if j < |titles| then Title(titles[j])
      else if j == |titles| && failed.Some? then LeftBehind(failed.value)
      else slots[j])
  }

  // ---------------------------------------------------------------------
  // Look-ups

  /** `lv_demo_music_get_title` as written: an id above the count gets
      NULL, any other id the slot's pointer, so the id equal to the count
      reads the slot just past the scanned tracks. */
  function GetTitleAsWritten(slots: seq<TitleSlot>, count: nat, id: nat): (s: TitleSlot)
    requires |slots| == TABLE_SLOTS && count < 256
    ensures id > count ==> s == NoTitle
    ensures id <= count ==> s == slots[id]
  {
    if id > count then NoTitle else slots[id]
  }

  /** When the scan stopped because only a path buffer could not be
      allocated, the title look-up for the id equal to the count returns
      that unwritten buffer as a track title. */
  lemma TitlePastTheEnd(slots: seq<TitleSlot>, count: nat)
    requires |slots| == TABLE_SLOTS && count < 256
    requires slots[count] == LeftBehind(PathFailed)
    ensures GetTitleAsWritten(slots, count, count) == Unwritten
    ensures GetTitle(slots, count, count) == NoTitle
  {
  }

  /** The intended look-up: ids below the count get their title, every
      other id NULL. */
  function GetTitle(slots: seq<TitleSlot>, count: nat, id: nat): (s: TitleSlot)
    requires |slots| == TABLE_SLOTS && count < 256
    ensures id >= count ==> s == NoTitle
    ensures id < count ==> s == slots[id]
  {
    if id >= count then NoTitle else slots[id]
  }

  /** The two look-ups differ only at the id equal to the count. */
  lemma GetTitleAgrees(slots: seq<TitleSlot>, count: nat, id: nat)
    requires |slots| == TABLE_SLOTS && count < 256 && id != count
    ensures GetTitleAsWritten(slots, count, id) == GetTitle(slots, count, id)
  {
  }

  /** After a scan that took every file, the intended look-up returns a
      title for exactly the scanned tracks, and that title is the file's
      name without its extension. */
  lemma TitlesOfScan(names: seq<string>, titles: seq<string>, slots: seq<TitleSlot>, id: nat)
    requires |slots| == TABLE_SLOTS && |names| == |titles| < 256
    requires forall j :: 0 <= j < |titles| ==> |names[j]| > |SUFFIX| && titles[j] == StripExtension(names[j])
    requires forall j :: 0 <= j < |titles| ==> slots[j] == Title(titles[j])
    ensures GetTitle(slots, |titles|, id).Title? <==> id < |names|
    ensures id < |names| ==> GetTitle(slots, |titles|, id).name + names[id][|names[id]| - 4..] == names[id]
  {
  }

  /** The fixed artist table: 15 entries. */
  function Artists(): (a: seq<string>)
    ensures |a| == 15
  {
    ["For Elise", "BGM 1", "BGM 2", "Something", "Waka Waka", "Robotics", "Robotics",
     "Unknown artist", "Unknown artist", "Unknown artist", "Unknown artist",
     "Unknown artist", "Unknown artist", "Unknown artist", "Unknown artist"]
  }

  /** The fixed genre table: 14 entries. */
  function Genres(): (g: seq<string>)
    ensures |g| == 14
  {
    ["For Elise - 2025", "BGM 1 - 2025", "BGM 2 - 2025", "Something - 2015", "Waka Waka - 2015",
     "Metal - 2015", "Metal - 2015", "Metal - 2015", "Metal - 2015", "Metal - 2015",
     "Metal - 2015", "Metal - 2015", "Metal - 2015", "Metal - 2015"]
  }

  /** The fixed track lengths as (minutes, seconds): 14 entries. */
  function Durations(): (d: seq<(nat, nat)>)
    ensures |d| == 14
    ensures forall k :: 0 <= k < |d| ==> d[k].1 < 60
  {
    [(1, 0), (0, 35), (1, 0), (0, 40), (1, 0), (3, 33), (1, 56), (3, 31),
     (2, 20), (2, 19), (2, 20), (2, 19), (2, 20), (2, 19)]
  }

  /** `lv_demo_music_get_artist`: NULL past the table. */
  function GetArtist(id: nat): (r: Option<string>)
    ensures r.Some? <==> id < |Artists()|
    ensures r.Some? ==> r.value == Artists()[id]
  {
    if id >= |Artists()| then None else Some(Artists()[id])
  }

  /** `lv_demo_music_get_genre`: NULL past the table. */
  function GetGenre(id: nat): (r: Option<string>)
    ensures r.Some? <==> id < |Genres()|
    ensures r.Some? ==> r.value == Genres()[id]
  {
    if id >= |Genres()| then None else Some(Genres()[id])
  }

  /** `lv_demo_music_get_track_length`: the length in seconds, 0 past the
      table. */
  function GetTrackLength(id: nat): (seconds: nat)
    ensures id >= |Durations()| ==> seconds == 0
    ensures id < |Durations()| ==> seconds == Durations()[id].0 * 60 + Durations()[id].1
  {
    if id >= |Durations()| then 0 else Durations()[id].0 * 60 + Durations()[id].1
  }

  /** Every listed track has a length between 35 seconds and 3:33, and a
      genre; the artist table has one entry more than the others. */
  lemma TablesAgree(id: nat)
    ensures id < 14 ==> 35 <= GetTrackLength(id) <= 213 && GetGenre(id).Some? && GetArtist(id).Some?
    ensures GetArtist(14).Some? && GetGenre(14).None? && GetTrackLength(14) == 0
  {
  }

  lemma TrackLengthExamples()
    ensures GetTrackLength(0) == 60 && GetTrackLength(1) == 35 && GetTrackLength(5) == 213
    ensures GetArtist(0) == Some("For Elise") && GetGenre(4) == Some("Waka Waka - 2015")
  {
  }
}
