/** What ftobin (src/ftobin.c) makes of a file of hunks, and when that is the image it is meant to be. */
module HunkImage {
  import opened Bytes
  import opened Symbols
  import opened Files
  import opened OutputImage

  // ---------------------------------------------------------------------------
  // The conversion

  /** The file being written, the position in it, and maxseek: how far it is taken to reach. */
  datatype Image = Image(bytes: seq<byte>, pos: nat, maxSeek: nat)

  /** A uword. */
  function Wrap(v: int): nat { v % 0x10000 }

  function Max(a: int, b: int): int { if a < b then b else a }

  /** After a hunk's data. */
  function PutHunk(m: Image, h: Hunk, base: nat): Image {
    Image(Overwrite(m.bytes, m.pos, h.data), m.pos + |h.data|, Max(m.maxSeek, Wrap(h.End()) - base))
  }

  const FILLER: byte := 255

  /** Moving on to an origin: as much as is missing up to it is filled in, where the file stands. */
  function MoveTo(m: Image, target: nat): Image {
    if target > m.maxSeek then
      Image(Overwrite(m.bytes, m.pos, OutputImage.Repeat(FILLER, target - m.maxSeek)), target, target)
    else m.(pos := target)
  }

  /** The image after these hunks. None: one of them began below the first one. */
  function Convert(hunks: seq<Hunk>): Option<Image>
    requires hunks != [] && hunks[0].org >= 0
  {
    var base := hunks[0].org;
    if |hunks| == 1 then Some(PutHunk(Image([], 0, 0), hunks[0], base))
    else
      match Convert(Front(hunks))
      case None => None
      case Some(m) =>
        if Last(hunks).org < base then None
        else Some(PutHunk(MoveTo(m, Last(hunks).org - base), Last(hunks), base))
  }

  /** A file is given up just if some hunk begins below the first one. */
  lemma {:induction false} RefusedExactly(hunks: seq<Hunk>)
    requires hunks != [] && hunks[0].org >= 0
    ensures Convert(hunks).None? <==> exists i :: 0 <= i < |hunks| && hunks[i].org < hunks[0].org
    decreases |hunks|
  {
    hide PutHunk, MoveTo;
    if |hunks| > 1 {
      var front := Front(hunks);
      RefusedExactly(front);
      assert forall i :: 0 <= i < |front| ==> front[i] == hunks[i];
      assert hunks[|hunks| - 1] == Last(hunks);
    }
  }

  // ---------------------------------------------------------------------------
  // The image it should be

  /** The high-water mark: one more than the highest address reached. */
  function High(hunks: seq<Hunk>): int
    requires hunks != []
  {
    if |hunks| == 1 then hunks[0].End() else Max(High(Front(hunks)), Last(hunks).End())
  }

  /** This is the image: from the first origin to the high-water mark, the byte that was put at each
      address last, and the filler where there is none. */
  ghost predicate IsImage(bytes: seq<byte>, hunks: seq<Hunk>)
    requires hunks != []
  {
    && |bytes| == High(hunks) - hunks[0].org
    && forall i :: 0 <= i < |bytes| ==>
         bytes[i] == ByteOr(ByteAt(hunks, hunks[0].org + i), FILLER)
  }

  function ByteOr(b: Option<byte>, filler: byte): byte {
    if b.Some? then b.value else filler
  }

  /** No hunk begins below the first one or ends beyond 64K. */
  ghost predicate InRange(hunks: seq<Hunk>) {
    && hunks != [] && hunks[0].org >= 0
    && forall i :: 0 <= i < |hunks| ==> hunks[0].org <= hunks[i].org && hunks[i].End() <= 0x10000
  }

  /** How far ftobin takes the image to reach. A hunk that ends at 64K, where the uword is zero again, is
      lost track of. */
  function Tracked(hunks: seq<Hunk>): int
    requires hunks != []
  {
    if |hunks| == 1 then Max(hunks[0].org, Wrap(hunks[0].End()))
    else Max(Max(Tracked(Front(hunks)), Last(hunks).org), Wrap(Last(hunks).End()))
  }

  /** The last hunk does no harm: it begins no further than ftobin takes the image to reach; or the one
      before it ended there, at the high-water mark; or the image reaches further, to 64K, and what is
      then filled in the wrong place holds filler already, or is overwritten by the hunk. */
  ghost predicate LastSound(hunks: seq<Hunk>)
    requires |hunks| > 1
  {
    var (front, h) := (Front(hunks), Last(hunks));
    var (end, gap) := (Last(front).End(), h.org - Tracked(front));
    || gap <= 0
    || end == High(front) == Tracked(front)
    || (Tracked(front) < High(front) && end + gap <= High(front)
        && forall a :: end <= a < end + gap && !(h.org <= a < h.End()) ==> ByteOr(ByteAt(front, a), FILLER) == FILLER)
  }

  ghost predicate Sound(hunks: seq<Hunk>)
    decreases |hunks|
  {
    |hunks| > 1 ==> LastSound(hunks) && Sound(Front(hunks))
  }

  lemma InRangeFront(hunks: seq<Hunk>)
    requires InRange(hunks) && |hunks| > 1
    ensures hunks[0].org >= 0 && InRange(Front(hunks)) && Front(hunks)[0] == hunks[0]
    ensures hunks[0].org <= Last(hunks).org && Last(hunks).End() <= 0x10000
    ensures hunks[0].org <= Last(Front(hunks)).org && Last(Front(hunks)).End() <= 0x10000
  {
  }

  lemma {:induction false} BeyondHigh(hunks: seq<Hunk>, a: int)
    requires hunks != [] && a >= High(hunks)
    ensures ByteAt(hunks, a) == None
  {
    if |hunks| > 1 {
      BeyondHigh(Front(hunks), a);
    } else {
      assert Front(hunks) == [];
    }
  }

  /** Only an image that reaches 64K is taken to be shorter than it is. */
  lemma {:induction false} HighReaches(hunks: seq<Hunk>)
    requires InRange(hunks)
    ensures hunks[0].org <= Tracked(hunks) <= High(hunks) <= 0x10000 && Last(hunks).End() <= High(hunks)
    ensures Tracked(hunks) < High(hunks) ==> High(hunks) == 0x10000
  {
    if |hunks| > 1 {
      InRangeFront(hunks);
      HighReaches(Front(hunks));
    }
  }

  // ---------------------------------------------------------------------------
  // When it is

  /** The state of the conversion, whatever it has written. */
  lemma {:induction false} ConvertState(hunks: seq<Hunk>)
    requires InRange(hunks)
    ensures Convert(hunks).Some?
    ensures var m := Convert(hunks).value;
            m.pos == Last(hunks).End() - hunks[0].org && m.maxSeek == Tracked(hunks) - hunks[0].org
  {
    hide Overwrite, Wrap;
    if |hunks| > 1 {
      InRangeFront(hunks);
      ConvertState(Front(hunks));
      var m := Convert(Front(hunks)).value;
      var (h, base) := (Last(hunks), hunks[0].org);
      MoveState(m, h.org - base);
      PutState(MoveTo(m, h.org - base), h, base);
    } else {
      PutState(Image([], 0, 0), hunks[0], hunks[0].org);
    }
  }

  lemma MoveState(m: Image, target: nat)
    ensures MoveTo(m, target).pos == target && MoveTo(m, target).maxSeek == Max(m.maxSeek, target)
  {
  }

  lemma PutState(m: Image, h: Hunk, base: nat)
    ensures PutHunk(m, h, base).pos == m.pos + |h.data|
    ensures PutHunk(m, h, base).maxSeek == Max(m.maxSeek, Wrap(h.End()) - base)
  {
  }

  /** The conversion of these hunks is the image it should be. */
  ghost predicate Right(hunks: seq<Hunk>)
    requires hunks != [] && hunks[0].org >= 0
  {
    Convert(hunks).Some? && IsImage(Convert(hunks).value.bytes, hunks)
  }

  lemma NoByte()
    ensures ByteOr(None, FILLER) == FILLER
  {
  }

  /** The bytes in front of a hunk, those it overwrites aside, are those of the image so far. */
  ghost predicate Prepared(bytes: seq<byte>, hunks: seq<Hunk>)
    requires |hunks| > 1
  {
    var (front, h, base) := (Front(hunks), Last(hunks), hunks[0].org);
    && |bytes| == Max(High(front), h.org) - base
    && forall i :: 0 <= i < |bytes| && !(h.org <= base + i < h.End()) ==>
         bytes[i] == ByteOr(ByteAt(front, base + i), FILLER)
  }

  /** Moving on from the image of some hunks extends it with filler, or fills what is filler already. */
  lemma MoveRight(hunks: seq<Hunk>, m: Image)
    requires |hunks| > 1 && InRange(hunks) && LastSound(hunks)
    requires IsImage(m.bytes, Front(hunks))
    requires m.pos == Last(Front(hunks)).End() - hunks[0].org && m.maxSeek == Tracked(Front(hunks)) - hunks[0].org
    ensures Prepared(MoveTo(m, Last(hunks).org - hunks[0].org).bytes, hunks)
  {
    hide Overwrite, ByteAt, High, ByteOr, Tracked;
    var (front, h, base) := (Front(hunks), Last(hunks), hunks[0].org);
    InRangeFront(hunks);
    HighReaches(front);
    var gap := h.org - Tracked(front);
    if gap > 0 {
      var filler := OutputImage.Repeat(FILLER, gap);
      if m.pos == |m.bytes| {
        OverwriteEnd(m.bytes, filler);
        MoveBehind(front, m.bytes, filler);
      } else {
        MoveInside(hunks, m.bytes, gap);
      }
    }
  }

  lemma MoveBehind(hunks: seq<Hunk>, image: seq<byte>, filler: seq<byte>)
    requires hunks != [] && IsImage(image, hunks) && forall i :: 0 <= i < |filler| ==> filler[i] == FILLER
    ensures forall i :: 0 <= i < |image + filler| ==>
              (image + filler)[i] == ByteOr(ByteAt(hunks, hunks[0].org + i), FILLER)
  {
    hide ByteAt, High, ByteOr;
    var bytes := image + filler;
    forall i | 0 <= i < |bytes| ensures bytes[i] == ByteOr(ByteAt(hunks, hunks[0].org + i), FILLER) {
      if i >= |image| {
        BeyondHigh(hunks, hunks[0].org + i);
        NoByte();
      } else {
        assert bytes[i] == image[i];
      }
    }
  }

  lemma MoveInside(hunks: seq<Hunk>, image: seq<byte>, gap: nat)
    requires |hunks| > 1 && InRange(hunks) && LastSound(hunks) && IsImage(image, Front(hunks))
    requires 0 < gap == Last(hunks).org - Tracked(Front(hunks)) && Last(Front(hunks)).End() != High(Front(hunks))
    ensures Last(Front(hunks)).End() >= hunks[0].org
    ensures Prepared(Overwrite(image, Last(Front(hunks)).End() - hunks[0].org, OutputImage.Repeat(FILLER, gap)), hunks)
  {
    SoundInside(hunks);
    hide *;
    InRangeFront(hunks);
    HighReaches(Front(hunks));
    HighIs64K(hunks);
    var (front, h, base) := (Front(hunks), Last(hunks), hunks[0].org);
    var pos := Last(front).End() - base;
    assert |image| == High(front) - base by {
      ImageReaches(front, image);
    }
    InsideBytes(front, image, pos, gap, h.org, h.End());
    ArePrepared(Overwrite(image, pos, OutputImage.Repeat(FILLER, gap)), hunks);
  }

  lemma ImageReaches(hunks: seq<Hunk>, image: seq<byte>)
    requires hunks != [] && IsImage(image, hunks)
    ensures |image| == High(hunks) - hunks[0].org
  {
    hide ByteAt, High, ByteOr;
  }

  lemma ArePrepared(bytes: seq<byte>, hunks: seq<Hunk>)
    requires |hunks| > 1 && |bytes| == Max(High(Front(hunks)), Last(hunks).org) - hunks[0].org
    requires forall i :: 0 <= i < |bytes| && !(Last(hunks).org <= hunks[0].org + i < Last(hunks).End()) ==>
                           bytes[i] == ByteOr(ByteAt(Front(hunks), hunks[0].org + i), FILLER)
    ensures Prepared(bytes, hunks)
  {
    hide ByteAt, High, ByteOr;
  }

  lemma InsideBytes(hunks: seq<Hunk>, image: seq<byte>, pos: nat, gap: nat, from: int, to: int)
    requires hunks != [] && IsImage(image, hunks) && pos + gap <= |image|
    requires forall a :: hunks[0].org + pos <= a < hunks[0].org + pos + gap && !(from <= a < to) ==>
                           ByteOr(ByteAt(hunks, a), FILLER) == FILLER
    ensures var r := Overwrite(image, pos, OutputImage.Repeat(FILLER, gap));
            && |r| == |image|
            && forall i :: 0 <= i < |r| && !(from <= hunks[0].org + i < to) ==>
                 r[i] == ByteOr(ByteAt(hunks, hunks[0].org + i), FILLER)
  {
    hide ByteAt, High, ByteOr, Overwrite, OutputImage.Repeat;
    FillWithin(image, pos, gap);
    var r := Overwrite(image, pos, OutputImage.Repeat(FILLER, gap));
    forall i | 0 <= i < |r| && !(from <= hunks[0].org + i < to)
      ensures r[i] == ByteOr(ByteAt(hunks, hunks[0].org + i), FILLER)
    {
      var a := hunks[0].org + i;
      if pos <= i < pos + gap {
        assert ByteOr(ByteAt(hunks, a), FILLER) == FILLER;
      } else {
        assert r[i] == image[i];
      }
    }
  }

  /** An image that reaches further than ftobin takes it to reaches beyond every hunk's begin. */
  lemma HighIs64K(hunks: seq<Hunk>)
    requires |hunks| > 1 && InRange(hunks) && Tracked(Front(hunks)) < High(Front(hunks))
    ensures Max(High(Front(hunks)), Last(hunks).org) == High(Front(hunks))
  {
    hide High, Tracked;
    InRangeFront(hunks);
    HighReaches(Front(hunks));
  }

  lemma FillWithin(f: seq<byte>, pos: nat, n: nat)
    requires pos + n <= |f|
    ensures var r := Overwrite(f, pos, OutputImage.Repeat(FILLER, n));
            |r| == |f| && forall i :: 0 <= i < |r| ==> r[i] == if pos <= i < pos + n then FILLER else f[i]
  {
  }

  lemma SoundInside(hunks: seq<Hunk>)
    requires |hunks| > 1 && LastSound(hunks) && Last(hunks).org > Tracked(Front(hunks))
    requires Last(Front(hunks)).End() != High(Front(hunks))
    ensures var (front, h) := (Front(hunks), Last(hunks));
            var (end, gap) := (Last(front).End(), h.org - Tracked(front));
            && Tracked(front) < High(front) && end + gap <= High(front)
            && forall a :: end <= a < end + gap && !(h.org <= a < h.End()) ==>
                 ByteOr(ByteAt(front, a), FILLER) == FILLER
  {
  }

  lemma StepRight(hunks: seq<Hunk>)
    requires InRange(hunks) && |hunks| > 1 && Right(Front(hunks)) && LastSound(hunks)
    ensures Right(hunks)
  {
    hide Overwrite, ByteAt, ByteOr, LastSound, Prepared;
    var (front, h, base) := (Front(hunks), Last(hunks), hunks[0].org);
    InRangeFront(hunks);
    ConvertState(front);
    var m := Convert(front).value;
    MoveRight(hunks, m);
    var m1 := MoveTo(m, h.org - base);
    assert Convert(hunks) == Some(PutHunk(m1, h, base));
    PutRight(hunks, m1.bytes);
  }

  lemma PutRight(hunks: seq<Hunk>, bytes: seq<byte>)
    requires InRange(hunks) && |hunks| > 1 && Prepared(bytes, hunks)
    ensures IsImage(Overwrite(bytes, Last(hunks).org - hunks[0].org, Last(hunks).data), hunks)
  {
    var (front, h, base) := (Front(hunks), Last(hunks), hunks[0].org);
    hide High, ByteOr;
    InRangeFront(hunks);
    HighOf(hunks);
    var r := Overwrite(bytes, h.org - base, h.data);
    forall i | 0 <= i < |r| ensures r[i] == ByteOr(ByteAt(hunks, base + i), FILLER) {
      assert ByteAt(hunks, base + i)
          == if h.org <= base + i < h.End() then Some(h.data[base + i - h.org]) else ByteAt(front, base + i);
    }
  }

  lemma ConvertLast(hunks: seq<Hunk>)
    requires |hunks| > 1 && 0 <= hunks[0].org <= Last(hunks).org && Convert(Front(hunks)).Some?
    ensures var m := Convert(Front(hunks)).value;
            Convert(hunks) == Some(PutHunk(MoveTo(m, Last(hunks).org - hunks[0].org), Last(hunks), hunks[0].org))
  {
    hide PutHunk, MoveTo;
  }

  /** What is written when the last hunk does harm. */
  lemma WrongBytes(hunks: seq<Hunk>)
    requires InRange(hunks) && |hunks| > 1 && Last(hunks).org > Tracked(Front(hunks))
    ensures hunks[0].org >= 0 && Convert(hunks).Some? && Convert(Front(hunks)).Some?
    ensures Last(Front(hunks)).End() >= hunks[0].org
    ensures Convert(hunks).value.bytes
         == Overwrite(Misfilled(Convert(Front(hunks)).value.bytes, hunks), Last(hunks).org - hunks[0].org,
           Last(hunks).data)
  {
    hide Overwrite, High, Tracked, Convert, PutHunk, MoveTo, OutputImage.Repeat, InRange, Wrap, Max;
    var (front, h, base) := (Front(hunks), Last(hunks), hunks[0].org);
    InRangeFront(hunks);
    ConvertState(front);
    var m := Convert(front).value;
    ConvertLast(hunks);
    MoveFills(m, h.org - base);
    MoveState(m, h.org - base);
    PutWrites(MoveTo(m, h.org - base), h, base);
    assert h.org - base - m.maxSeek == h.org - Tracked(front);
    assert MoveTo(m, h.org - base).bytes == Misfilled(m.bytes, hunks);
  }

  lemma MoveFills(m: Image, target: nat)
    requires target > m.maxSeek
    ensures MoveTo(m, target).bytes == Overwrite(m.bytes, m.pos, OutputImage.Repeat(FILLER, target - m.maxSeek))
  {
  }

  lemma PutWrites(m: Image, h: Hunk, base: nat)
    ensures PutHunk(m, h, base).bytes == Overwrite(m.bytes, m.pos, h.data)
  {
  }

  /** A hunk that does harm. If ftobin knew how far the image reaches, the filler went to the wrong place:
      the first address it leaves out in front of the hunk reads as zero, or, the hunk being empty, the
      image ends there. */
  lemma StepWrong(hunks: seq<Hunk>)
    requires InRange(hunks) && |hunks| > 1 && Right(Front(hunks)) && !LastSound(hunks)
    ensures Convert(hunks).Some? && !Right(hunks)
    ensures Tracked(Front(hunks)) == High(Front(hunks)) ==> Missed(Convert(hunks).value.bytes, hunks)
  {
    hide Overwrite, High, Tracked, ByteAt, ByteOr, Convert, OutputImage.Repeat;
    var (front, h, base) := (Front(hunks), Last(hunks), hunks[0].org);
    InRangeFront(hunks);
    HighReaches(front);
    HighReaches(hunks);
    HighOf(hunks);
    WrongBytes(hunks);
    var (image, filled) := (Convert(front).value.bytes, Misfilled(Convert(front).value.bytes, hunks));
    if Tracked(front) == High(front) {
      WrongHole(hunks, image);
    } else {
      WrongFill(hunks, image);
    }
  }

  /** The image of the hunks in front, filled in the wrong place. */
  function Misfilled(image: seq<byte>, hunks: seq<Hunk>): seq<byte>
    requires |hunks| > 1 && Last(Front(hunks)).End() >= hunks[0].org && Last(hunks).org > Tracked(Front(hunks))
  {
    Overwrite(image, Last(Front(hunks)).End() - hunks[0].org,
              OutputImage.Repeat(FILLER, Last(hunks).org - Tracked(Front(hunks))))
  }

  /** The first address that was left out in front of the last hunk. */
  ghost predicate Missed(bytes: seq<byte>, hunks: seq<Hunk>)
    requires |hunks| > 1
  {
    var (front, h, base) := (Front(hunks), Last(hunks), hunks[0].org);
    var missed := Max(High(front), Last(front).End() + (h.org - Tracked(front)));
    && base <= missed < h.org && ByteAt(hunks, missed) == None
    && (if h.data == [] then |bytes| == missed - base else missed - base < |bytes| && bytes[missed - base] == 0)
  }

  lemma HighOf(hunks: seq<Hunk>)
    requires |hunks| > 1
    ensures High(hunks) == Max(High(Front(hunks)), Last(hunks).End())
  {
  }

  lemma WrongHole(hunks: seq<Hunk>, image: seq<byte>)
    requires InRange(hunks) && |hunks| > 1 && !LastSound(hunks) && IsImage(image, Front(hunks))
    requires Tracked(Front(hunks)) == High(Front(hunks)) && Last(Front(hunks)).End() >= hunks[0].org
    ensures Last(hunks).org > Tracked(Front(hunks))
    ensures var r := Overwrite(Misfilled(image, hunks), Last(hunks).org - hunks[0].org, Last(hunks).data);
            Missed(r, hunks) && !IsImage(r, hunks)
  {
    hide High, Tracked;
    var (front, h, base) := (Front(hunks), Last(hunks), hunks[0].org);
    InRangeFront(hunks);
    HighReaches(front);
    HighOf(hunks);
    var filled := Misfilled(image, hunks);
    BeyondHigh(front, base + |filled|);
    if h.data == [] {
      OverwriteNothing(filled, h.org - base);
    }
  }

  lemma WrongFill(hunks: seq<Hunk>, image: seq<byte>)
    requires InRange(hunks) && |hunks| > 1 && !LastSound(hunks) && IsImage(image, Front(hunks))
    requires Tracked(Front(hunks)) < High(Front(hunks)) && Last(Front(hunks)).End() >= hunks[0].org
    ensures Last(hunks).org > Tracked(Front(hunks))
    ensures !IsImage(Overwrite(Misfilled(image, hunks), Last(hunks).org - hunks[0].org, Last(hunks).data), hunks)
  {
    hide High, Tracked;
    var (front, h, base) := (Front(hunks), Last(hunks), hunks[0].org);
    InRangeFront(hunks);
    HighReaches(front);
    HighOf(hunks);
    var (end, gap) := (Last(front).End(), h.org - Tracked(front));
    var r := Overwrite(Misfilled(image, hunks), h.org - base, h.data);
    if h.data == [] {
      OverwriteNothing(Misfilled(image, hunks), h.org - base);
    }
    if end + gap <= High(front) {
      var a :| end <= a < end + gap && !(h.org <= a < h.End()) && ByteOr(ByteAt(front, a), FILLER) != FILLER;
      assert r[a - base] == FILLER && ByteAt(hunks, a) == ByteAt(front, a);
    }
  }

  /** ftobin makes the right image of all the hunks of a file, after each of them, just if no hunk after
      the first one does harm. */
  lemma {:induction false} ImagesRightExactly(hunks: seq<Hunk>)
    requires hunks != [] && hunks[0].org >= 0 && InRange(hunks)
    ensures AllRight(hunks) <==> Sound(hunks)
  {
    hide Right, InRange, LastSound;
    if |hunks| == 1 {
      OneRight(hunks);
      assert hunks[..1] == hunks;
    } else {
      var front := Front(hunks);
      InRangeFront(hunks);
      ImagesRightExactly(front);
      assert front[..|front|] == front;
      if Right(front) {
        if LastSound(hunks) {
          StepRight(hunks);
        } else {
          StepWrong(hunks);
        }
      }
      RightPrefixes(hunks);
    }
  }

  ghost predicate AllRight(hunks: seq<Hunk>)
    requires hunks != [] && hunks[0].org >= 0
  {
    forall k :: 0 < k <= |hunks| ==> Right(hunks[..k])
  }

  lemma RightPrefixes(hunks: seq<Hunk>)
    requires |hunks| > 1 && hunks[0].org >= 0
    ensures AllRight(hunks) <==> AllRight(Front(hunks)) && Right(hunks)
  {
    hide Right;
    var (front, n) := (Front(hunks), |hunks|);
    assert forall k :: 0 < k < n ==> hunks[..k] == front[..k];
    assert hunks[..n] == hunks && front[..n - 1] == front;
    if AllRight(hunks) {
      assert Right(hunks[..n]);
    }
  }

  lemma OneRight(hunks: seq<Hunk>)
    requires |hunks| == 1 && InRange(hunks)
    ensures Right(hunks)
  {
    assert Front(hunks) == [];
  }

  // ---------------------------------------------------------------------------
  // Below 64K

  /** A hunk that begins beyond the high-water mark follows one that ended at it. */
  ghost predicate Smooth(hunks: seq<Hunk>)
    decreases |hunks|
  {
    |hunks| > 1 ==>
      && (Last(hunks).org > High(Front(hunks)) ==> Last(Front(hunks)).End() == High(Front(hunks)))
      && Smooth(Front(hunks))
  }

  /** Where no hunk but the last ends at 64K, that is what it takes. */
  lemma {:induction false} SmoothExactly(hunks: seq<Hunk>)
    requires InRange(hunks) && forall i :: 0 <= i < |hunks| - 1 ==> hunks[i].End() < 0x10000
    ensures AllRight(hunks) <==> Smooth(hunks)
    ensures Last(hunks).End() < 0x10000 ==> Tracked(hunks) == High(hunks)
  {
    hide Right, AllRight, ByteAt, ByteOr;
    ImagesRightExactly(hunks);
    if |hunks| > 1 {
      InRangeFront(hunks);
      SmoothExactly(Front(hunks));
      ImagesRightExactly(Front(hunks));
    }
  }

  // ---------------------------------------------------------------------------
  // Programs that do not go back

  /** Hunks one behind the other. */
  ghost predicate Rising(hunks: seq<Hunk>) {
    forall i :: 0 < i < |hunks| ==> hunks[i - 1].End() <= hunks[i].org
  }

  lemma {:induction false} RisingHigh(hunks: seq<Hunk>)
    requires hunks != [] && Rising(hunks)
    ensures High(hunks) == Last(hunks).End()
    ensures forall i :: 0 <= i < |hunks| ==> hunks[0].org <= hunks[i].org && hunks[i].End() <= Last(hunks).End()
  {
    if |hunks| > 1 {
      RisingHigh(Front(hunks));
      assert Last(Front(hunks)).End() <= Last(hunks).org;
    }
  }

  lemma {:induction false} RisingSmooth(hunks: seq<Hunk>)
    requires hunks != [] && Rising(hunks)
    ensures Smooth(hunks)
  {
    if |hunks| > 1 {
      RisingSmooth(Front(hunks));
      RisingHigh(Front(hunks));
    }
  }

  lemma {:induction false} HunksRise(trace: seq<Chunk>)
    requires Ascending(trace) && trace != []
    ensures HunksOf(trace) != [] && Rising(HunksOf(trace))
    ensures HunksOf(trace)[0].org == trace[0].addr && Last(HunksOf(trace)).End() == EndOf(trace)
  {
    if |trace| > 1 {
      AscendingFront(trace);
      HunksRise(Front(trace));
    } else {
      assert Front(trace) == [];
    }
  }

  /** For a program that does not go back and ends by 64K, ftobin makes of the format 2 file what
      format 3 would have been with the default filler. */
  lemma {:induction false} BinaryIsRaw(trace: seq<Chunk>)
    requires trace != [] && Ascending(trace) && 0 <= trace[0].addr && EndOf(trace) <= 0x10000
    requires forall i :: 0 <= i < |trace| ==> trace[i].fill == FILLER
    ensures HunksOf(trace) != [] && HunksOf(trace)[0].org >= 0
    ensures Convert(HunksOf(trace)).Some? && Convert(HunksOf(trace)).value.bytes == Body(trace)
  {
    hide Convert, Body, High, ByteAt, Overwrite, Tracked, HunksOf;
    var hunks := HunksOf(trace);
    HunksRise(trace);
    RisingHigh(hunks);
    RisingSmooth(hunks);
    forall i | 0 <= i < |hunks| - 1 ensures hunks[i].End() < 0x10000 {
      HunksAreMaximal(trace, i + 1);
    }
    SmoothExactly(hunks);
    assert hunks[..|hunks|] == hunks;
    assert Right(hunks[..|hunks|]);
    BodyLength(trace);
    var bytes := Convert(hunks).value.bytes;
    forall i | 0 <= i < |bytes| ensures bytes[i] == Body(trace)[i] {
      var a := trace[0].addr + i;
      BodyIsImage(trace, a);
      HunksKeepMemory(trace, a);
      GapFillIs(trace, a);
    }
  }

  lemma {:induction false} GapFillIs(trace: seq<Chunk>, a: int)
    requires trace != [] && forall i :: 0 <= i < |trace| ==> trace[i].fill == FILLER
    ensures GapFill(trace, a) == FILLER
  {
    if |trace| > 1 {
      GapFillIs(Front(trace), a);
    }
  }

  /** A hunk that ends exactly at 64K is lost track of: a later hunk inside it has filler written
      behind the image. */
  lemma TopOfMemory()
    ensures var hunks := [Hunk(0xFFFE, [1, 2]), Hunk(0xFFFF, [3])];
            HunksFit(hunks) && !Right(hunks)
  {
    var hunks := [Hunk(0xFFFE, [1, 2]), Hunk(0xFFFF, [3])];
    assert Front(hunks) == [hunks[0]];
    var m := PutHunk(Image([], 0, 0), hunks[0], 0xFFFE);
    assert m == Image([1, 2], 2, 0);
    assert MoveTo(m, 1).bytes == [1, 2, 255];
    assert Convert(hunks).value.bytes == [1, 3, 255];
  }
}
