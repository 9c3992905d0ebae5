/** The fixed log buffer that truncates at code-point boundaries.  Text is a sequence of
    Unicode scalar values; its bytes are UTF-8 (section 3 of RFC 3629). */
module StackFmt {
  import opened Words

  type Scalar = c: int | 0 <= c < 0xD800 || 0xE000 <= c < 0x11_0000 witness 0

  type Text = seq<Scalar>

  function Encode(c: Scalar): (b: Bytes)
    ensures 1 <= |b| <= 4
  {
    if c < 0x80 then [c]
    else if c < 0x800 then [0xC0 + c / 0x40, 0x80 + c % 0x40]
    else if c < 0x1_0000 then [0xE0 + c / 0x1000, 0x80 + c / 0x40 % 0x40, 0x80 + c % 0x40]
    else [0xF0 + c / 0x4_0000, 0x80 + c / 0x1000 % 0x40, 0x80 + c / 0x40 % 0x40, 0x80 + c % 0x40]
  }

  function Utf8(s: Text): Bytes {
    if s == [] then [] else Encode(s[0]) + Utf8(s[1..])
  }

  /** The top two bits are 10. */
  predicate IsContinuation(b: u8) { b / 0x40 == 2 }

  /** Only the first byte of an encoded scalar is not a continuation byte. */
  lemma EncodeShape(c: Scalar)
    ensures !IsContinuation(Encode(c)[0])
    ensures forall i :: 1 <= i < |Encode(c)| ==> IsContinuation(Encode(c)[i])
  {}

  lemma {:induction false} Utf8Concat(a: Text, b: Text)
    ensures Utf8(a + b) == Utf8(a) + Utf8(b)
  {
    if a == [] {
      assert a + b == b;
    } else {
      assert (a + b)[1..] == a[1..] + b;
      Utf8Concat(a[1..], b);
    }
  }

  /** Two examples of section 7 of RFC 3629: "A", not identical to, Alpha, "."; and the
      ideograph U+233B4. */
  lemma PublishedExamples()
    ensures Utf8([0x41, 0x2262, 0x391, 0x2E]) == [0x41, 0xE2, 0x89, 0xA2, 0xCE, 0x91, 0x2E]
    ensures Utf8([0x2_33B4]) == [0xF0, 0xA3, 0x8E, 0xB4]
  {
    var none: Text := [];
    assert [0x2E][1..] == none && Utf8([0x2E]) == [0x2E];
    assert [0x391, 0x2E][1..] == [0x2E] && Utf8([0x391, 0x2E]) == [0xCE, 0x91, 0x2E];
    assert [0x2262, 0x391, 0x2E][1..] == [0x391, 0x2E] && Encode(0x2262) == [0xE2, 0x89, 0xA2];
    assert Utf8([0x2262, 0x391, 0x2E]) == [0xE2, 0x89, 0xA2, 0xCE, 0x91, 0x2E];
    assert [0x41, 0x2262, 0x391, 0x2E][1..] == [0x2262, 0x391, 0x2E];
    assert [0x2_33B4][1..] == none && Utf8([0x2_33B4]) == Encode(0x2_33B4);
  }

  // ---- UTF-8 is uniquely readable ----------------------------------------

  /** The number of bytes a lead byte announces. */
  function Announced(lead: u8): nat {
    if lead < 0x80 then 1 else if lead < 0xE0 then 2 else if lead < 0xF0 then 3 else 4
  }

  lemma LeadAnnounces(c: Scalar)
    ensures Announced(Encode(c)[0]) == |Encode(c)|
  {}

  /** The scalar an encoding spells. */
  function Value(b: seq<int>): int {
    if |b| == 1 then b[0]
    else if |b| == 2 then (b[0] - 0xC0) * 0x40 + (b[1] - 0x80)
    else if |b| == 3 then ((b[0] - 0xE0) * 0x40 + (b[1] - 0x80)) * 0x40 + (b[2] - 0x80)
    else if |b| == 4 then (((b[0] - 0xF0) * 0x40 + (b[1] - 0x80)) * 0x40 + (b[2] - 0x80)) * 0x40 + (b[3] - 0x80)
    else 0
  }

  lemma ValueOfEncode(c: Scalar)
    ensures Value(Encode(c)) == c
  {
    var q := c / 0x40;
    assert c == q * 0x40 + c % 0x40;
    Quotients(c);
    assert q == q / 0x40 * 0x40 + q % 0x40;
    var p := q / 0x40;
    assert p == p / 0x40 * 0x40 + p % 0x40;
  }

  lemma Quotients(c: nat)
    ensures c / 0x1000 == c / 0x40 / 0x40 && c / 0x4_0000 == c / 0x40 / 0x40 / 0x40
  {}

  /** A buffer holds at most one text. */
  lemma {:induction false} Utf8Injective(s: Text, t: Text)
    requires Utf8(s) == Utf8(t)
    ensures s == t
  {
    if s != [] && t != [] {
      var x, y := Encode(s[0]), Encode(t[0]);
      LeadAnnounces(s[0]);
      LeadAnnounces(t[0]);
      assert x[0] == Utf8(s)[0] && y[0] == Utf8(t)[0];
      assert x == Utf8(s)[..|x|] && y == Utf8(t)[..|x|];
      ValueOfEncode(s[0]);
      ValueOfEncode(t[0]);
      assert Utf8(s[1..]) == Utf8(s)[|x|..] && Utf8(t[1..]) == Utf8(t)[|x|..];
      Utf8Injective(s[1..], t[1..]);
      assert s == [s[0]] + s[1..] && t == [t[0]] + t[1..];
    }
  }

  // ---- the longest prefix that fits --------------------------------------

  /** How many scalars of `s` fit in `room` bytes. */
  function Fit(s: Text, room: nat): (n: nat)
    ensures n <= |s|
  {
    if s == [] || |Encode(s[0])| > room then 0 else 1 + Fit(s[1..], room - |Encode(s[0])|)
  }

  function Size(s: Text): nat { |Utf8(s)| }

  lemma TakeFirst(s: Text, n: nat)
    requires 0 < n <= |s|
    ensures Size(s[..n]) == |Encode(s[0])| + Size(s[1..][..n - 1])
  {
    assert s[..n][1..] == s[1..][..n - 1];
  }

  /** `Fit` is the longest code-point-aligned prefix within the room. */
  lemma {:induction false} FitLongest(s: Text, room: nat)
    ensures Size(s[..Fit(s, room)]) <= room
    ensures forall n :: Fit(s, room) < n <= |s| ==> Size(s[..n]) > room
  {
    if s == [] || |Encode(s[0])| > room {
      assert s[..0] == [];
      forall n | 0 < n <= |s|
        ensures Size(s[..n]) > room
      {
        TakeFirst(s, n);
      }
    } else {
      FitLongest(s[1..], room - |Encode(s[0])|);
      TakeFirst(s, Fit(s, room));
      forall n | Fit(s, room) < n <= |s|
        ensures Size(s[..n]) > room
      {
        TakeFirst(s, n);
      }
    }
  }

  /** `cut` is the last boundary of `b` within the room: no continuation byte there, and
      only continuation bytes from there to the end of the room. */
  predicate CutsAt(b: Bytes, room: nat, cut: nat) {
    && cut <= room < |b| && room - cut <= 3
    && !IsContinuation(b[cut])
    && forall p :: cut < p <= room ==> IsContinuation(b[p])
  }

  lemma CutsShift(x: Bytes, rest: Bytes, room: nat, cut: nat)
    requires CutsAt(rest, room, cut)
    ensures CutsAt(x + rest, |x| + room, |x| + cut) && (x + rest)[..|x| + cut] == x + rest[..cut]
  {}

  lemma CutsFirst(c: Scalar, rest: Bytes, room: nat)
    requires room < |Encode(c)|
    ensures CutsAt(Encode(c) + rest, room, 0)
  {
    var x := Encode(c);
    EncodeShape(c);
    forall p | 0 <= p <= room
      ensures (x + rest)[p] == x[p]
    {}
  }

  /** `n` scalars of `s` fit, and the byte form of `s` is cut behind them. */
  predicate CutBehind(s: Text, room: nat, n: nat) {
    && n == Fit(s, room) < |s|
    && CutsAt(Utf8(s), room, Size(s[..n]))
    && Utf8(s)[..Size(s[..n])] == Utf8(s[..n])
  }

  lemma CutBehindShift(c: Scalar, rest: Text, room: nat, n: nat)
    requires CutBehind(rest, room, n)
    ensures CutBehind([c] + rest, |Encode(c)| + room, n + 1)
  {
    var s := [c] + rest;
    assert s[1..] == rest && s[..n + 1] == [c] + rest[..n] && s[..n + 1][1..] == rest[..n];
    CutsShift(Encode(c), Utf8(rest), room, Size(rest[..n]));
  }

  /** Text that does not fit is cut exactly behind its longest prefix that does. */
  lemma {:induction false} CutPoint(s: Text, room: nat)
    requires room < Size(s)
    ensures CutBehind(s, room, Fit(s, room))
  {
    var x := Encode(s[0]);
    if |x| > room {
      assert s[..0] == [];
      CutsFirst(s[0], Utf8(s[1..]), room);
    } else {
      CutPoint(s[1..], room - |x|);
      assert s == [s[0]] + s[1..];
      CutBehindShift(s[0], s[1..], room - |x|, Fit(s[1..], room - |x|));
    }
  }

  // ---- the buffer ---------------------------------------------------------

  /** The text in a buffer of `capacity` bytes after one more write. */
  function AfterWrite(capacity: nat, text: Text, s: Text): Text
    requires Size(text) <= capacity
  {
    text + s[..Fit(s, capacity - Size(text))]
  }

  class Buffer {
    const buf: array<u8>
    var len: nat
    ghost var text: Text

    /** The used bytes are the UTF-8 form of `text`. */
    ghost predicate Valid()
      reads this, buf
    {
      len <= buf.Length && buf[..len] == Utf8(text)
    }

    constructor (capacity: nat)
      ensures Valid() && fresh(buf) && buf.Length == capacity && text == []
    {
      buf := new u8[capacity](_ => 0);
      len, text := 0, [];
    }

    /** Copy `bytes` behind the used part. */
    method Append(bytes: Bytes)
      requires len + |bytes| <= buf.Length
      modifies this, buf
      ensures len == old(len) + |bytes| && buf[..len] == old(buf[..len]) + bytes && text == old(text)
    {
      ghost var head := buf[..len];
      for i := 0 to |bytes|
        invariant len == old(len) && text == old(text)
        invariant buf[..len] == head && buf[len..len + i] == bytes[..i]
      {
        buf[len + i] := bytes[i];
      }
      assert buf[len..len + |bytes|] == bytes;
      assert buf[..len + |bytes|] == head + bytes;
      len := len + |bytes|;
    }

    /** Write a string, given by its UTF-8 bytes; what does not fit is cut at a boundary. */
    method WriteStr(bytes: Bytes, ghost s: Text)
      requires Valid() && bytes == Utf8(s)
      modifies this, buf
      ensures Valid() && text == AfterWrite(buf.Length, old(text), s)
      ensures len < old(len) + |bytes| ==> buf.Length - len <= 3
    {
      ghost var room := buf.Length - len;
      FitLongest(s, room);
      Utf8Concat(text, s[..Fit(s, room)]);
      ghost var text' := AfterWrite(buf.Length, text, s);
      var remaining := buf.Length - len;
      if remaining == 0 {
        NothingFits(s);
        text := text';
        return;
      }
      if |bytes| <= remaining {
        assert s[..|s|] == s;
        Append(bytes);
      } else {
        CutPoint(s, room);
        var cut := remaining;
        while cut > 0 && IsContinuation(bytes[cut])
          invariant Size(s[..Fit(s, room)]) <= cut <= remaining
        {
          cut := cut - 1;
        }
        Append(bytes[..cut]);
      }
      text := text';
    }

    /** The used bytes, which are the UTF-8 form of the text. */
    function AsStr(): (b: Bytes)
      reads this, buf
      requires Valid()
      ensures b == Utf8(text) && |b| <= buf.Length
    {
      buf[..len]
    }
  }

  lemma NothingFits(s: Text)
    ensures Fit(s, 0) == 0 && s[..0] == []
  {}

  // ---- runs ---------------------------------------------------------------

  /** The text left by a sequence of writes. */
  function Written(capacity: nat, writes: seq<Text>): (text: Text)
    ensures Size(text) <= capacity
    decreases |writes|
  {
    if writes == [] then []
    else
      var before, s := Written(capacity, writes[..|writes| - 1]), writes[|writes| - 1];
      FitLongest(s, capacity - Size(before));
      Utf8Concat(before, s[..Fit(s, capacity - Size(before))]);
      AfterWrite(capacity, before, s)
  }

  function Everything(writes: seq<Text>): Text
    decreases |writes|
  {
    if writes == [] then [] else Everything(writes[..|writes| - 1]) + writes[|writes| - 1]
  }

  /** Some write was cut short. */
  predicate Cut(capacity: nat, writes: seq<Text>)
    decreases |writes|
  {
    writes != [] &&
    var before := writes[..|writes| - 1];
    Cut(capacity, before) || Fit(writes[|writes| - 1], capacity - Size(Written(capacity, before))) < |writes[|writes| - 1]|
  }

  /** No write after a cut one found room for a scalar. */
  predicate QuietAfterCut(capacity: nat, writes: seq<Text>)
    decreases |writes|
  {
    writes == [] ||
    var before := writes[..|writes| - 1];
    && QuietAfterCut(capacity, before)
    && (Cut(capacity, before) ==> Fit(writes[|writes| - 1], capacity - Size(Written(capacity, before))) == 0)
  }

  /** How the buffered text `w` stands to everything written, `e`: it is a beginning of it
      exactly if `quiet`; then it is all of it, or was cut before a scalar too wide to fit. */
  predicate Stands(capacity: nat, w: Text, e: Text, quiet: bool, cut: bool) {
    && |w| <= |e|
    && (quiet <==> w <= e)
    && (quiet ==> if cut then |w| < |e| && |Encode(e[|w|])| > capacity - Size(w) else w == e)
  }

  /** Buffered text is a beginning of all that was written exactly when nothing was
      added after a cut: a later, narrower string can still slip into the last bytes. */
  lemma {:induction false} BufferIsPrefixIff(capacity: nat, writes: seq<Text>)
    ensures Stands(capacity, Written(capacity, writes), Everything(writes),
                   QuietAfterCut(capacity, writes), Cut(capacity, writes))
    decreases |writes|
  {
    if writes != [] {
      var before, s := writes[..|writes| - 1], writes[|writes| - 1];
      BufferIsPrefixIff(capacity, before);
      var w, e, quiet, cut :=
        Written(capacity, before), Everything(before), QuietAfterCut(capacity, before), Cut(capacity, before);
      var n := Fit(s, capacity - Size(w));
      assert Written(capacity, writes) == w + s[..n] && Everything(writes) == e + s;
      assert QuietAfterCut(capacity, writes) == (quiet && (cut ==> n == 0)) && Cut(capacity, writes) == (cut || n < |s|);
      PrefixStep(capacity, w, e, s, quiet, cut);
    }
  }

  /** After a cut, text that finds room differs from what was cut. */
  lemma StepAfterCut(capacity: nat, w: Text, e: Text, s: Text, n: nat)
    requires Size(w) <= capacity && Stands(capacity, w, e, true, true) && n == Fit(s, capacity - Size(w))
    ensures Stands(capacity, w + s[..n], e + s, n == 0, true)
  {
    assert (e + s)[|w|] == e[|w|];
    if n == 0 {
      assert w + s[..0] == w;
    } else {
      FirstTooWide(s, capacity - Size(w));
      assert (w + s[..n])[|w|] == s[0];
    }
  }

  /** Before any cut, the buffer holds everything and gains what fits. */
  lemma StepUncut(capacity: nat, w: Text, s: Text, n: nat)
    requires Size(w) <= capacity && n == Fit(s, capacity - Size(w))
    ensures Stands(capacity, w + s[..n], w + s, true, n < |s|)
  {
    if n < |s| {
      NextTooWide(s, capacity - Size(w));
      Utf8Concat(w, s[..n]);
      assert (w + s)[|w + s[..n]|] == s[n];
    } else {
      assert s[..n] == s;
    }
  }

  lemma PrefixStep(capacity: nat, w: Text, e: Text, s: Text, quiet: bool, cut: bool)
    requires Size(w) <= capacity && Stands(capacity, w, e, quiet, cut)
    ensures var n := Fit(s, capacity - Size(w));
      Stands(capacity, w + s[..n], e + s, quiet && (cut ==> n == 0), cut || n < |s|)
  {
    var n := Fit(s, capacity - Size(w));
    if !quiet {
      StillDiffers(w, e, s[..n], s);
    } else if cut {
      StepAfterCut(capacity, w, e, s, n);
    } else {
      StepUncut(capacity, w, s, n);
    }
  }

  lemma FirstTooWide(s: Text, room: nat)
    requires Fit(s, room) > 0
    ensures |Encode(s[0])| <= room
  {}

  lemma StillDiffers(w: Text, e: Text, x: Text, y: Text)
    requires |w| <= |e| && !(w <= e)
    ensures !(w + x <= e + y)
  {
    var i :| 0 <= i < |w| && w[i] != e[i];
    assert (w + x)[i] != (e + y)[i];
  }

  lemma {:induction false} NextTooWide(s: Text, room: nat)
    requires Fit(s, room) < |s|
    ensures Size(s[..Fit(s, room)]) <= room
    ensures |Encode(s[Fit(s, room)])| > room - Size(s[..Fit(s, room)])
  {
    if |Encode(s[0])| > room {
      assert s[..0] == [];
    } else {
      NextTooWide(s[1..], room - |Encode(s[0])|);
      TakeFirst(s, Fit(s, room));
    }
  }

  /** It happens: in a one-byte buffer a two-byte scalar is cut, and the next letter, which
      came after it, is kept. */
  lemma LaterTextSlipsIn()
    ensures Written(1, [[0xE9], [0x78]]) == [0x78]
  {}
}
