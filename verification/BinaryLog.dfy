/**
 The binary record log (binary-logger-ring-buffer/binaryLogger.h): frames of a 32-bit length and the
 bytes, one after another in a file of fixed size. The length is stored in the machine's byte
 order, taken here to be little-endian.
 */
module BinaryLog {
  import opened Sequences

  type Byte = b: int | 0 <= b < 256

  const LEN_MODULUS: nat := 0x1_0000_0000
  const HEADER: nat := 4

  function Encode32(n: nat): (bytes: seq<Byte>)
    requires n < LEN_MODULUS
    ensures |bytes| == HEADER
    ensures n == bytes[0] as int + 0x100 * bytes[1] as int + 0x1_0000 * bytes[2] as int + 0x100_0000 * bytes[3] as int
  {
    assert n == n % 256 + 256 * (n / 256);
    assert n / 65536 == n / 256 / 256 && n / 16777216 == n / 65536 / 256;
    [n % 256, n / 256 % 256, n / 65536 % 256, n / 16777216]
  }

  function Decode32(bytes: seq<Byte>): (n: nat)
    requires |bytes| == HEADER
    ensures n < LEN_MODULUS
  {
    var b0: int, b1: int, b2: int, b3: int := bytes[0], bytes[1], bytes[2], bytes[3];
    b0 + 256 * b1 + 65536 * b2 + 16777216 * b3
  }

  lemma LengthRoundTrip(n: nat)
    requires n < LEN_MODULUS
    ensures Decode32(Encode32(n)) == n
  {
  }

  /** A string whose length fits its header. */
  type Record = s: seq<Byte> | |s| < LEN_MODULUS

  /** What log keeps of a string: the cast to 32 bits drops whole multiples of 2^32 of its length. */
  function Kept(s: seq<Byte>): (r: Record)
    ensures r <= s
    ensures r == s <==> |s| < 0x1_0000_0000
  {
    s[..|s| % LEN_MODULUS]
  }

  function Frame(r: Record): (bytes: seq<Byte>)
    ensures |bytes| == HEADER + |r|
  {
    Encode32(|r|) + r
  }

  /** The frame of a record of less than 256 bytes, as it lies in the file. */
  lemma ShortFrame(r: Record)
    requires |r| < 256
    ensures Frame(r) == [|r|, 0, 0, 0] + r
  {
  }

  function Frames(rs: seq<Record>): seq<Byte> {
    if rs == [] then [] else Frames(rs[..|rs| - 1]) + Frame(rs[|rs| - 1])
  }

  lemma FramesOneMore(rs: seq<Record>, r: Record)
    ensures Frames(rs + [r]) == Frames(rs) + Frame(r)
  {
    assert (rs + [r])[..|rs|] == rs;
  }

  lemma {:induction false} FramesFirst(r: Record, rs: seq<Record>)
    ensures Frames([r] + rs) == Frame(r) + Frames(rs)
    decreases |rs|
  {
    if rs == [] {
      assert [r] + rs == [] + [r];
      FramesOneMore([], r);
    } else {
      var front, last := rs[..|rs| - 1], rs[|rs| - 1];
      FramesFirst(r, front);
      assert [r] + rs == ([r] + front) + [last];
      FramesOneMore([r] + front, last);
      Associative(Frame(r), Frames(front), Frame(last));
    }
  }

  // ---------------------------------------------------------------------------------------------
  // Reading.

  datatype Decoded = Records(rs: seq<Record>) | Malformed

  /** The whole of `bytes` as frames, when it is that. */
  function Decode(bytes: seq<Byte>): Decoded {
    if bytes == [] then Records([])
    else if |bytes| < HEADER then Malformed
    else
      var len := Decode32(bytes[..HEADER]);
      if HEADER + len > |bytes| then Malformed
      else
        var first: Record := bytes[HEADER..HEADER + len];
        match Decode(bytes[HEADER + len..])
        case Malformed => Malformed
        case Records(rest) => Records([first] + rest)
  }

  /** A reader that does not know the write position: it stops at the first zero length. */
  function ReadBack(bytes: seq<Byte>): seq<Record> {
    if |bytes| < HEADER then []
    else
      var len := Decode32(bytes[..HEADER]);
      if len == 0 || HEADER + len > |bytes| then []
      else
        var first: Record := bytes[HEADER..HEADER + len];
        [first] + ReadBack(bytes[HEADER + len..])
  }

  lemma FrameParts(r: Record, tail: seq<Byte>)
    ensures var bytes := Frame(r) + tail;
      && |bytes| == HEADER + |r| + |tail|
      && Decode32(bytes[..HEADER]) == |r|
      && bytes[HEADER..HEADER + |r|] == r
      && bytes[HEADER + |r|..] == tail
  {
    LengthRoundTrip(|r|);
    assert (Frame(r) + tail)[..HEADER] == Encode32(|r|);
  }

  /** Decoding frames gives the records back. */
  lemma {:induction false} DecodeFrames(rs: seq<Record>)
    ensures Decode(Frames(rs)) == Records(rs)
    decreases |rs|
  {
    if rs != [] {
      assert rs == [rs[0]] + rs[1..];
      FramesFirst(rs[0], rs[1..]);
      FrameParts(rs[0], Frames(rs[1..]));
      DecodeFrames(rs[1..]);
    }
  }

  function Zeros(k: nat): (bytes: seq<Byte>)
    ensures |bytes| == k
  {
    seq(k, i => 0)
  }

  /** The records before the first empty one. */
  function UntilEmpty(rs: seq<Record>): (r: seq<Record>)
    ensures r <= rs
    ensures r == rs <==> [] !in rs
  {
    if rs == [] || rs[0] == [] then []
    else
      assert rs == [rs[0]] + rs[1..];
      [rs[0]] + UntilEmpty(rs[1..])
  }

  lemma {:induction false} ReadBackFrames(rs: seq<Record>, k: nat)
    ensures ReadBack(Frames(rs) + Zeros(k)) == UntilEmpty(rs)
    decreases |rs|
  {
    if rs == [] {
      assert Frames(rs) + Zeros(k) == Zeros(k);
      if k >= HEADER {
        assert Zeros(k)[..HEADER] == [0, 0, 0, 0];
      }
    } else {
      assert rs == [rs[0]] + rs[1..];
      FramesFirst(rs[0], rs[1..]);
      var tail := Frames(rs[1..]) + Zeros(k);
      Associative(Frame(rs[0]), Frames(rs[1..]), Zeros(k));
      FrameParts(rs[0], tail);
      ReadBackFrames(rs[1..], k);
    }
  }

  /** Over zeros, reading without the write position finds every record exactly when none is empty. */
  lemma ReadBackIff(rs: seq<Record>, k: nat)
    ensures ReadBack(Frames(rs) + Zeros(k)) == rs <==> [] !in rs
  {
    ReadBackFrames(rs, k);
  }

  // ---------------------------------------------------------------------------------------------
  // Writing.

  /** Whether a string still fits behind `rs` in a file of `fileSize` bytes. */
  predicate Fits(fileSize: nat, rs: seq<Record>, s: seq<Byte>) {
    |Frames(rs)| + HEADER + |Kept(s)| <= fileSize
  }

  /** The records in the file after the calls in `strings`: each call that fits, in order. */
  function Accepted(fileSize: nat, strings: seq<seq<Byte>>): (rs: seq<Record>)
    ensures |Frames(rs)| <= fileSize
    decreases |strings|
  {
    if strings == [] then []
    else
      var k := |strings| - 1;
      var rs := Accepted(fileSize, strings[..k]);
      if Fits(fileSize, rs, strings[k]) then
        assert (rs + [Kept(strings[k])])[..|rs|] == rs;
        rs + [Kept(strings[k])]
      else rs
  }

  /** Call number `i` wrote nothing. */
  predicate Dropped(fileSize: nat, strings: seq<seq<Byte>>, i: nat)
    requires i < |strings|
  {
    !Fits(fileSize, Accepted(fileSize, strings[..i]), strings[i])
  }

  lemma OneCallLater(fileSize: nat, strings: seq<seq<Byte>>, j: nat)
    requires 0 < j <= |strings|
    ensures Accepted(fileSize, strings[..j - 1]) <= Accepted(fileSize, strings[..j])
    ensures |Frames(Accepted(fileSize, strings[..j - 1]))| <= |Frames(Accepted(fileSize, strings[..j]))|
  {
    hide Accepted, Frames, Fits, Kept;
    var rs, s := Accepted(fileSize, strings[..j - 1]), strings[j - 1];
    assert strings[..j - 1] + [s] == strings[..j];
    AcceptedStep(fileSize, strings[..j - 1], s);
    FramesOneMore(rs, Kept(s));
  }

  lemma {:induction false} LaterIsLonger(fileSize: nat, strings: seq<seq<Byte>>, i: nat, j: nat)
    requires i <= j <= |strings|
    ensures Accepted(fileSize, strings[..i]) <= Accepted(fileSize, strings[..j])
    ensures |Frames(Accepted(fileSize, strings[..i]))| <= |Frames(Accepted(fileSize, strings[..j]))|
    decreases j
  {
    hide Accepted, Frames;
    if i < j {
      LaterIsLonger(fileSize, strings, i, j - 1);
      OneCallLater(fileSize, strings, j);
    }
  }

  /** After a drop, every later string at least as long is dropped too. */
  lemma DropsStick(fileSize: nat, strings: seq<seq<Byte>>, i: nat, j: nat)
    requires i <= j < |strings| && Dropped(fileSize, strings, i)
    requires |Kept(strings[i])| <= |Kept(strings[j])|
    ensures Dropped(fileSize, strings, j)
  {
    LaterIsLonger(fileSize, strings, i, j);
  }

  lemma AcceptedStep(fileSize: nat, strings: seq<seq<Byte>>, s: seq<Byte>)
    ensures var rs := Accepted(fileSize, strings);
      Accepted(fileSize, strings + [s]) == if Fits(fileSize, rs, s) then rs + [Kept(s)] else rs
  {
    assert (strings + [s])[..|strings|] == strings;
  }

  /** `at` are the numbers of the calls that are not dropped, in order. */
  ghost predicate AreNumbers(fileSize: nat, strings: seq<seq<Byte>>, at: seq<nat>) {
    && (forall i, j :: 0 <= i < j < |at| ==> at[i] < at[j])
    && (forall n: nat :: n in at <==> n < |strings| && !Dropped(fileSize, strings, n))
  }

  /** The records are what is kept of the strings with these numbers. */
  ghost predicate AreKept(strings: seq<seq<Byte>>, at: seq<nat>, rs: seq<Record>) {
    && |rs| == |at|
    && forall j :: 0 <= j < |at| ==> at[j] < |strings| && rs[j] == Kept(strings[at[j]])
  }

  lemma DroppedStays(fileSize: nat, strings: seq<seq<Byte>>, s: seq<Byte>, i: nat)
    requires i < |strings|
    ensures Dropped(fileSize, strings + [s], i) <==> Dropped(fileSize, strings, i)
  {
    hide Accepted, Fits;
    assert (strings + [s])[..i] == strings[..i];
  }

  lemma DroppedLast(fileSize: nat, strings: seq<seq<Byte>>, s: seq<Byte>)
    ensures Dropped(fileSize, strings + [s], |strings|) <==> !Fits(fileSize, Accepted(fileSize, strings), s)
  {
    hide Accepted, Fits;
    assert (strings + [s])[..|strings|] == strings;
  }

  lemma NumbersOneMore(fileSize: nat, strings: seq<seq<Byte>>, s: seq<Byte>, at: seq<nat>)
    requires AreNumbers(fileSize, strings, at)
    ensures var all, k := strings + [s], |strings|;
      AreNumbers(fileSize, all, if Dropped(fileSize, all, k) then at else at + [k])
  {
    hide Dropped;
    var all, k := strings + [s], |strings|;
    forall n | 0 <= n < k ensures Dropped(fileSize, all, n) <==> Dropped(fileSize, strings, n) {
      DroppedStays(fileSize, strings, s, n);
    }
    if !Dropped(fileSize, all, k) {
      forall i, j | 0 <= i < j < |at + [k]| ensures (at + [k])[i] < (at + [k])[j] {
        assert at[i] in at;
      }
    }
  }

  lemma KeptOneMore(strings: seq<seq<Byte>>, s: seq<Byte>, at: seq<nat>, rs: seq<Record>)
    requires AreKept(strings, at, rs)
    ensures AreKept(strings + [s], at, rs)
    ensures AreKept(strings + [s], at + [|strings|], rs + [Kept(s)])
  {
    hide Kept;
  }

  lemma NoneAccepted(fileSize: nat)
    ensures AreNumbers(fileSize, [], []) && AreKept([], [], Accepted(fileSize, []))
  {
  }

  /** What is accepted: of each call not dropped, in order, the one record that log keeps of its string. */
  lemma {:induction false} AcceptedAre(fileSize: nat, strings: seq<seq<Byte>>) returns (at: seq<nat>)
    ensures AreNumbers(fileSize, strings, at)
    ensures AreKept(strings, at, Accepted(fileSize, strings))
    decreases |strings|
  {
    hide AreNumbers, AreKept, Dropped, Accepted, Fits, Kept, Frames;
    if strings == [] {
      at := [];
      NoneAccepted(fileSize);
    } else {
      var k := |strings| - 1;
      var before, s := strings[..k], strings[k];
      at := AcceptedAre(fileSize, before);
      assert before + [s] == strings;
      NumbersOneMore(fileSize, before, s, at);
      KeptOneMore(before, s, at, Accepted(fileSize, before));
      AcceptedStep(fileSize, before, s);
      DroppedLast(fileSize, before, s);
      at := if Dropped(fileSize, strings, k) then at else at + [k];
    }
  }

  /** What log keeps of each string. */
  function AllKept(strings: seq<seq<Byte>>): (rs: seq<Record>)
    ensures |rs| == |strings|
  {
    seq(|strings|, i requires 0 <= i < |strings| => Kept(strings[i]))
  }

  lemma AllKeptOneMore(strings: seq<seq<Byte>>, s: seq<Byte>)
    ensures AllKept(strings + [s]) == AllKept(strings) + [Kept(s)]
  {
    hide Kept;
  }

  /** Every call is accepted exactly when the frames of all of them fit into the file. */
  lemma {:induction false} AllAcceptedIff(fileSize: nat, strings: seq<seq<Byte>>)
    ensures Accepted(fileSize, strings) == AllKept(strings) <==> |Frames(AllKept(strings))| <= fileSize
    decreases |strings|
  {
    hide Kept;
    if strings != [] {
      var k := |strings| - 1;
      AllAcceptedIff(fileSize, strings[..k]);
      assert strings[..k] + [strings[k]] == strings;
      AllKeptOneMore(strings[..k], strings[k]);
      FramesOneMore(AllKept(strings[..k]), Kept(strings[k]));
    }
  }

  /** The file holds the frames of `rs`, and behind them what was there before. */
  ghost predicate Holds(file: seq<Byte>, rs: seq<Record>, before: seq<Byte>) {
    |Frames(rs)| <= |before| && file == Frames(rs) + before[|Frames(rs)|..]
  }

  lemma HoldsDecodes(file: seq<Byte>, rs: seq<Record>, before: seq<Byte>)
    requires Holds(file, rs, before)
    ensures file[..|Frames(rs)|] == Frames(rs) && Decode(file[..|Frames(rs)|]) == Records(rs)
  {
    DecodeFrames(rs);
  }

  /** The two copies of one call, put together. */
  lemma HoldsOneMore(file: seq<Byte>, rs: seq<Record>, r: Record, before: seq<Byte>)
    requires |Frames(rs)| + HEADER + |r| <= |before|
    requires file == ((Frames(rs) + Encode32(|r|)) + r) + before[|Frames(rs)|..][HEADER..][|r|..]
    ensures Holds(file, rs + [r], before)
    ensures file[..|Frames(rs)|] == Frames(rs)
  {
    FramesOneMore(rs, r);
    Associative(Frames(rs), Encode32(|r|), r);
    assert before[|Frames(rs)|..][HEADER..][|r|..] == before[|Frames(rs + [r])|..];
  }

  class BinaryLogger {
    const file: array<Byte>
    var writePos: nat
    /** The contents before the first call, and every string passed to a call. */
    ghost const before: seq<Byte>
    ghost var strings: seq<seq<Byte>>

    ghost predicate Valid()
      reads this, file
    {
      && |before| == file.Length
      && writePos == |Frames(Accepted(file.Length, strings))|
      && Holds(file[..], Accepted(file.Length, strings), before)
    }

    /** The file as it is found: zeros when it is new, anything when it is opened again. */
    constructor (contents: seq<Byte>)
      ensures Valid() && fresh(file) && file.Length == |contents|
      ensures writePos == 0 && file[..] == contents
      ensures before == contents && strings == []
    {
      file := new Byte[|contents|](i requires 0 <= i < |contents| => contents[i]);
      writePos := 0;
      before := contents;
      strings := [];
      new;
      assert file[..] == contents;
    }

    /** One memory copy into the file, which consists of the part in use and of the tail. */
    method Copy(bytes: seq<Byte>, ghost used: seq<Byte>, ghost tail: seq<Byte>)
      requires file[..] == used + tail && writePos == |used| && |bytes| <= |tail|
      modifies this`writePos, file
      ensures file[..] == (used + bytes) + tail[|bytes|..]
      ensures writePos == |used + bytes|
    {
      var pos := writePos;
      assert file.Length == |used + tail|;
      forall i | 0 <= i < |bytes| {
        file[pos + i] := bytes[i];
      }
      writePos := pos + |bytes|;
    }

    /** The two copies that store a record behind `rs`: its length, then its bytes. */
    method Store(r: Record, ghost rs: seq<Record>)
      requires Holds(file[..], rs, before) && writePos == |Frames(rs)|
      requires writePos + HEADER + |r| <= file.Length
      modifies this`writePos, file
      ensures Holds(file[..], rs + [r], before) && writePos == |Frames(rs + [r])|
      ensures file[..old(writePos)] == old(file[..writePos])
    {
      ghost var used, tail, header := Frames(rs), before[writePos..], Encode32(|r|);
      Copy(Encode32(|r|), used, tail);
      Copy(r, used + header, tail[HEADER..]);
      HoldsOneMore(file[..], rs, r, before);
      FramesOneMore(rs, r);
    }

    /** One call: stored when it fits, dropped without a trace when it does not. */
    method Log(s: seq<Byte>)
      requires Valid()
      modifies this, file
      ensures Valid() && strings == old(strings) + [s]
      ensures file[..old(writePos)] == old(file[..writePos])
      ensures var len := |s| % 0x1_0000_0000;
        Accepted(file.Length, strings) == old(Accepted(file.Length, strings)) +
          if old(writePos) + 4 + len <= file.Length then [s[..len]] else []
    {
      hide Accepted, Frames, Frame;
      var len := |s| % LEN_MODULUS;
      ghost var rs := Accepted(file.Length, strings);
      AcceptedStep(file.Length, strings, s);
      if writePos + HEADER + len > file.Length {
        strings := strings + [s];
        assert file[..writePos] == Frames(rs);
        return;
      }
      Store(s[..len], rs);
      strings := strings + [s];
    }

    /** The bytes up to the write position are the accepted strings, in order, and nothing else. */
    lemma DecodesToAccepted()
      requires Valid()
      ensures Decode(file[..writePos]) == Records(Accepted(file.Length, strings))
    {
      HoldsDecodes(file[..], Accepted(file.Length, strings), before);
    }

    /** Reading a new file from the start, after any calls: exact unless an empty string was accepted. */
    lemma ReadBackNewFile()
      requires Valid() && before == Zeros(file.Length)
      ensures ReadBack(file[..]) == Accepted(file.Length, strings) <==> [] !in Accepted(file.Length, strings)
    {
      var rs := Accepted(file.Length, strings);
      assert Zeros(file.Length)[|Frames(rs)|..] == Zeros(file.Length - |Frames(rs)|);
      ReadBackIff(rs, file.Length - |Frames(rs)|);
    }
  }
}
