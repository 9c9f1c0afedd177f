/**
 The picture viewer example: it lists the `.bmp` files of the card's root
 directory and steps through them with two touch areas under the picture,
 an arrow to the left (previous) and one to the right (next).

 The current picture is an `int8_t` index into the 256-slot path table,
 while the number of pictures is a `uint8_t`. The step the firmware takes
 is modelled as written, 8-bit wrap-around included, and next to it the
 step the wrap-around code evidently means; the two agree while there are
 at most 127 pictures.
 */
module BmpViewer {
  import opened Optional
  import opened FileNames

  const PATH_SLOTS: nat := 256
  const MOUNT_POINT: string := "/sdcard"
  const SUFFIX: string := ".bmp"

  // ---------------------------------------------------------------------
  // The directory scan

  /** `list_files`: `dir` is the directory's entries in `readdir` order, or
      `None` when it cannot be opened, in which case the count keeps its
      previous value. Every accepted name gets a path; the count is the
      number of paths in a `uint8_t`. A 257th accepted name has its path
      stored one past the end of the 256-slot table, which is undefined
      behaviour: the scan reports `overflow` there and stops, holding the
      256 paths taken so far. */
  method ListFiles(base: string, dir: Option<seq<string>>, previousCount: nat)
    returns (paths: seq<string>, count: nat, overflow: bool)
    requires previousCount < 256
    ensures count < 256
    ensures overflow <==> dir.Some? && |Matching(dir.value, SUFFIX)| > PATH_SLOTS
    ensures dir.None? ==> paths == [] && count == previousCount
    ensures dir.Some? ==> count == |paths| % 256
    ensures dir.Some? && !overflow ==> |paths| == |Matching(dir.value, SUFFIX)|
    ensures overflow ==> |paths| == PATH_SLOTS
    ensures dir.Some? ==> forall k :: 0 <= k < |paths| ==> paths[k] == JoinPath(base, Matching(dir.value, SUFFIX)[k])
  {
    if dir.None? {
      return [], previousCount, false;
    }
    var entries := dir.value;
    paths := [];
    overflow := false;
    var n := 0;
    while n < |entries| && !overflow
      invariant n <= |entries|
      invariant |paths| <= PATH_SLOTS && |paths| <= |Matching(entries[..n], SUFFIX)|
      invariant !overflow ==> |paths| == |Matching(entries[..n], SUFFIX)|
      invariant overflow ==> |paths| == PATH_SLOTS < |Matching(entries[..n], SUFFIX)|
      invariant forall k :: 0 <= k < |paths| ==> paths[k] == JoinPath(base, Matching(entries[..n], SUFFIX)[k])
    {
      MatchingStep(entries, n, SUFFIX);
      if HasSuffix(entries[n], SUFFIX) {
        if |paths| == PATH_SLOTS {
          overflow := true;
        } else {
          paths := paths + [JoinPath(base, entries[n])];
        }
      }
      n := n + 1;
    }
    MatchingPrefixOf(entries, n, SUFFIX);
    if !overflow {
      assert entries[..n] == entries;
    }
    count := |paths| % 256;
  }

  /** A name equal to `.bmp`, or ending in another extension, gets no
      path; upper-case extensions do. */
  lemma ListFilesExample()
    ensures Matching(["a.BMP", ".bmp", "b.txt"], SUFFIX) == ["a.BMP"]
  {
    SuffixExamples();
    assert !HasSuffix("b.txt", SUFFIX) by {
      assert "b.txt"[1..][1] == 't';
    }
    assert ["a.BMP", ".bmp", "b.txt"][..2][..1] == ["a.BMP"];
    assert ["a.BMP", ".bmp", "b.txt"][..2] == ["a.BMP", ".bmp"];
    assert ["a.BMP", ".bmp", "b.txt"][..1][..0] == [];
    assert HasSuffix("a.BMP", SUFFIX) by {
      assert "a.BMP"[1..] == ".BMP";
    }
  }

  // ---------------------------------------------------------------------
  // What the viewer shows after the scan

  datatype Screen = CardFailed | NoPictures | ArrowsShown

  /** The start screen: the card's status, then either the message that
      there are no pictures (the example stops there) or the right arrow. */
  function StartScreen(cardOk: bool, count: nat): (s: Screen)
    ensures s == ArrowsShown <==> cardOk && count != 0
    ensures s == NoPictures <==> cardOk && count == 0
  {
    if !cardOk then CardFailed
    else if count == 0 then NoPictures
    else ArrowsShown
  }

  /** 256 pictures fill the table, and the 8-bit count then reads 0: the
      viewer reports an empty card. */
  lemma FullTableLooksEmpty(entries: seq<string>, paths: seq<string>, count: nat)
    requires |Matching(entries, SUFFIX)| == PATH_SLOTS
    requires |paths| == |Matching(entries, SUFFIX)| && count == |paths| % 256
    ensures StartScreen(true, count) == NoPictures
  {
  }

  // ---------------------------------------------------------------------
  // Stepping through the pictures

  /** One reading of the touch panel: the number of points and the first
      point's coordinates. */
  datatype Touch = Touch(cnt: nat, x: nat, y: nat)

  /** The loop's state: the picture index and the last point that moved it
      (both statics start at 0). */
  datatype Viewer = Viewer(index: int, prevX: nat, prevY: nat)

  const START: Viewer := Viewer(0, 0, 0)

  predicate InLeftArrow(t: Touch) {
    200 < t.x < 260 && 420 < t.y < 480
  }

  predicate InRightArrow(t: Touch) {
    540 < t.x < 600 && 420 < t.y < 480
  }

  lemma ArrowsDisjoint(t: Touch)
    ensures !(InLeftArrow(t) && InRightArrow(t))
  {
  }

  /** Storing an `int` into an `int8_t`: the value modulo 256, read as a
      two's-complement byte (what the target's compiler does). */
  function Int8(v: int): (r: int)
    ensures -128 <= r < 128
    ensures (r - v) % 256 == 0
    ensures -128 <= v < 128 ==> r == v
  {
    (v + 128) % 256 - 128
  }

  /** How one touch reading is handled as written: a single point, not
      the last point that moved the viewer, in an arrow. The previous arrow
      decrements the `int8_t` index and wraps a negative one to
      `count - 1`; the next arrow increments it and wraps one above
      `count - 1` to 0. The second result is the index whose picture is
      loaded. */
  function StepAsWritten(v: Viewer, t: Touch, count: nat): (r: (Viewer, Option<int>))
    requires -128 <= v.index < 128 && count < 256
    ensures -128 <= r.0.index < 128
    ensures r.1.Some? <==> t.cnt == 1 && !(t.x == v.prevX && t.y == v.prevY) && (InLeftArrow(t) || InRightArrow(t))
    ensures r.1.Some? ==> r.0 == Viewer(r.1.value, t.x, t.y)
    ensures r.1.None? ==> r.0 == v
  {
    if t.cnt != 1 || (t.x == v.prevX && t.y == v.prevY) then (v, None)
    else if InLeftArrow(t) then
      var i := Int8(v.index - 1);
      var i' := if i < 0 then Int8(count - 1) else i;
      (Viewer(i', t.x, t.y), Some(i'))
    else if InRightArrow(t) then
      var i := Int8(v.index + 1);
      var i' := if i > count - 1 then 0 else i;
      (Viewer(i', t.x, t.y), Some(i'))
    else (v, None)
  }

  /** With 200 pictures, the previous arrow at the first picture stores
      199 in the `int8_t` and loads path -57, outside the table. */
  lemma PreviousWrapsNegative()
    ensures StepAsWritten(START, Touch(1, 230, 450), 200).1 == Some(-57)
  {
  }

  /** Even 128 pictures are too many: the next arrow at picture 127 wraps
      the index to -128, which is not above `count - 1`, and is loaded. */
  lemma NextWrapsNegative()
    ensures StepAsWritten(Viewer(127, 0, 0), Touch(1, 570, 450), 128).1 == Some(-128)
  {
  }

  /** The intended step: the index stays a valid picture and wraps around
      the list in both directions. */
  function Step(v: Viewer, t: Touch, count: nat): (r: (Viewer, Option<int>))
    requires 0 < count <= PATH_SLOTS && 0 <= v.index < count
    ensures 0 <= r.0.index < count
    ensures r.1.Some? <==> t.cnt == 1 && !(t.x == v.prevX && t.y == v.prevY) && (InLeftArrow(t) || InRightArrow(t))
    ensures r.1.Some? ==> r.0 == Viewer(r.1.value, t.x, t.y)
    ensures r.1.None? ==> r.0 == v
    ensures r.1.Some? && InLeftArrow(t) ==> (r.1.value + 1) % count == v.index
    ensures r.1.Some? && InRightArrow(t) ==> r.1.value == (v.index + 1) % count
  {
    if t.cnt != 1 || (t.x == v.prevX && t.y == v.prevY) then (v, None)
    else if InLeftArrow(t) then
      var i := if v.index == 0 then count - 1 else v.index - 1;
      Successor(i, count);
      (Viewer(i, t.x, t.y), Some(i))
    else if InRightArrow(t) then
      var i := if v.index == count - 1 then 0 else v.index + 1;
      Successor(v.index, count);
      (Viewer(i, t.x, t.y), Some(i))
    else (v, None)
  }

  /** The successor of a position in a cycle of `n`. */
  lemma Successor(a: int, n: int)
    requires 0 <= a < n
    ensures (a + 1) % n == if a == n - 1 then 0 else a + 1
  {
    if a == n - 1 {
      assert (a + 1) % n == n % n;
    } else {
      assert 0 <= a + 1 < n;
    }
  }

  /** Up to 127 pictures the code as written takes exactly the intended
      step. */
  lemma StepsAgree(v: Viewer, t: Touch, count: nat)
    requires 0 < count <= 127 && 0 <= v.index < count
    ensures StepAsWritten(v, t, count) == Step(v, t, count)
  {
  }

  /** Next, then previous at another point of the left arrow, returns to
      the same picture. */
  lemma NextThenPrevious(v: Viewer, count: nat, right: Touch, left: Touch)
    requires 0 < count <= PATH_SLOTS && 0 <= v.index < count
    requires right.cnt == 1 && InRightArrow(right) && left.cnt == 1 && InLeftArrow(left)
    requires !(right.x == v.prevX && right.y == v.prevY)
    ensures Step(Step(v, right, count).0, left, count).0.index == v.index
  {
  }

  /** Holding a finger still: the second identical reading changes
      nothing. */
  lemma SameTouchIgnored(v: Viewer, t: Touch, count: nat)
    requires 0 < count <= PATH_SLOTS && 0 <= v.index < count
    ensures var once := Step(v, t, count).0; Step(once, t, count) == (once, None)
  {
  }
}
