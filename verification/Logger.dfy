/**
 The logger (logger/logging.h): the producer's log calls and the flusher's loop as one thread runs
 them, and the theorem that joins formatter, queue and shutdown over every interleaving.
 */
module Logger {
  import opened Options
  import opened Modular
  import opened Sequences
  import opened Queue
  import opened Machine
  import opened Pacing
  import opened Shutdown
  import opened Bursts
  import opened Closing
  import opened Formatter

  datatype LogType =
    | CHAR | INTEGER | LONG_INTEGER | LONG_LONG_INTEGER
    | UNSIGNED_INTEGER | UNSIGNED_LONG_INTEGER | UNSIGNED_LONG_LONG_INTEGER | FLOAT | DOUBLE

  function TypeOf(e: LogElement): LogType {
    match e
    case Char(_) => CHAR
    case Integer(_) => INTEGER
    case LongInteger(_) => LONG_INTEGER
    case LongLongInteger(_) => LONG_LONG_INTEGER
    case UnsignedInteger(_) => UNSIGNED_INTEGER
    case UnsignedLongInteger(_) => UNSIGNED_LONG_INTEGER
    case UnsignedLongLongInteger(_) => UNSIGNED_LONG_LONG_INTEGER
    case Float(_) => FLOAT
    case Double(_) => DOUBLE
  }

  /**
   An element in memory: its type field and its union, which are stored and loaded apart. The union
   is known by the member last stored in it.
   */
  datatype LogWord = Tag(t: LogType) | Payload(e: LogElement)

  function Words(e: LogElement): (ws: seq<LogWord>)
    ensures |ws| == 2
  {
    [Tag(TypeOf(e)), Payload(e)]
  }

  function AllWords(es: seq<LogElement>): (wss: seq<seq<LogWord>>)
    ensures |wss| == |es|
    ensures forall i :: 0 <= i < |es| ==> wss[i] == Words(es[i])
  {
    seq(|es|, i requires 0 <= i < |es| => Words(es[i]))
  }

  lemma AllWordsConcat(a: seq<LogElement>, b: seq<LogElement>)
    ensures AllWords(a + b) == AllWords(a) + AllWords(b)
  {
  }

  /** What the output stream prints for a value of each type, named after the members of the union. */
  datatype Stream = Stream(
    c: char -> string,
    i: int -> string,
    li: int -> string,
    lli: int -> string,
    u: nat -> string,
    ul: nat -> string,
    ull: nat -> string,
    f: real -> string,
    d: real -> string,
    stray: seq<LogWord> -> string     // whatever comes of reading a member not last stored
  )

  /** The flusher's switch: the tag picks the member of the union that is printed. */
  function Switch(to: Stream, ws: seq<LogWord>): string {
    if |ws| != 2 then to.stray(ws)
    else
      match (ws[0], ws[1])
      case (Tag(CHAR), Payload(Char(x))) => to.c(x)
      case (Tag(INTEGER), Payload(Integer(x))) => to.i(x)
      case (Tag(LONG_INTEGER), Payload(LongInteger(x))) => to.li(x)
      case (Tag(LONG_LONG_INTEGER), Payload(LongLongInteger(x))) => to.lli(x)
      case (Tag(UNSIGNED_INTEGER), Payload(UnsignedInteger(x))) => to.u(x)
      case (Tag(UNSIGNED_LONG_INTEGER), Payload(UnsignedLongInteger(x))) => to.ul(x)
      case (Tag(UNSIGNED_LONG_LONG_INTEGER), Payload(UnsignedLongLongInteger(x))) => to.ull(x)
      case (Tag(FLOAT), Payload(Float(x))) => to.f(x)
      case (Tag(DOUBLE), Payload(Double(x))) => to.d(x)
      case _ => to.stray(ws)
  }

  /** The value of an element printed as what it is. */
  function Shown(to: Stream, e: LogElement): string {
    match e
    case Char(x) => to.c(x)
    case Integer(x) => to.i(x)
    case LongInteger(x) => to.li(x)
    case LongLongInteger(x) => to.lli(x)
    case UnsignedInteger(x) => to.u(x)
    case UnsignedLongInteger(x) => to.ul(x)
    case UnsignedLongLongInteger(x) => to.ull(x)
    case Float(x) => to.f(x)
    case Double(x) => to.d(x)
  }

  /** What is read back of an element is printed as the element itself, whatever a stray read gives. */
  lemma SwitchShows(to: Stream, e: LogElement)
    ensures Switch(to, Words(e)) == Shown(to, e)
  {
  }

  /** A stream on which only the element `a` prints as "1". */
  function Detector(a: LogElement): (to: Stream)
    ensures forall e :: Shown(to, e) == "1" <==> e == a
  {
    Stream(x => if a == Char(x) then "1" else "0",
           x => if a == Integer(x) then "1" else "0",
           x => if a == LongInteger(x) then "1" else "0",
           x => if a == LongLongInteger(x) then "1" else "0",
           (x: nat) => if a == UnsignedInteger(x) then "1" else "0",
           (x: nat) => if a == UnsignedLongInteger(x) then "1" else "0",
           (x: nat) => if a == UnsignedLongLongInteger(x) then "1" else "0",
           x => if a == Float(x) then "1" else "0",
           x => if a == Double(x) then "1" else "0",
           ws => "0")
  }

  /** Two elements leave the same text on every stream only if they are the same: no value is lost. */
  lemma ElementsTellApart(a: LogElement, b: LogElement)
    ensures (forall to :: Switch(to, Words(a)) == Switch(to, Words(b))) <==> a == b
  {
    var to := Detector(a);
    SwitchShows(to, a);
    SwitchShows(to, b);
    assert Switch(to, Words(a)) == Switch(to, Words(b)) ==> a == b;
  }

  /** An argument of log: a value, a pointer to characters, or a string object. */
  datatype LogArgument = Value(e: LogElement) | Pointer(chars: string) | Object(text: string)

  function Elements(a: LogArgument): seq<LogElement> {
    match a
    case Value(e) => [e]
    case Pointer(s) => Chars(CStr(s))
    case Object(s) => Chars(CStr(s))
  }

  function Arguments(args: seq<LogArgument>): (xs: seq<Argument>)
    ensures |xs| == |args|
  {
    seq(|args|, i requires 0 <= i < |args| => Elements(args[i]))
  }

  lemma ArgumentsCons(a: LogArgument, args: seq<LogArgument>)
    ensures Arguments([a] + args) == [Elements(a)] + Arguments(args)
  {
    hide Elements;
  }

  /** The character a pointer into the text sees; the terminator is the last it may look at. */
  function At(s: string, i: nat): char
    requires i <= |s|
  {
    if i < |s| then s[i] else '\0'
  }

  lemma TextAt(s: string, i: nat)
    requires i <= |CStr(s)|
    ensures At(s, i) == if i < |CStr(s)| then CStr(s)[i] else '\0'
  {
    hide CStr;
  }

  /** Between positions `at` and `i` of the format, `done` has been pushed and no hole was met. */
  ghost predicate Scanned(s: string, at: nat, i: nat, xs: seq<Argument>, done: seq<LogElement>)
    requires at <= i <= |s|
  {
    && Judge(s[at..], xs) == Judge(s[i..], xs)
    && Pushed(s[at..], xs) == done + Pushed(s[i..], xs)
  }

  lemma ScanStart(s: string, at: nat, xs: seq<Argument>)
    requires at <= |s|
    ensures Scanned(s, at, at, xs, [])
  {
    assert [] + Pushed(s[at..], xs) == Pushed(s[at..], xs);
  }

  /** One turn of the scanning loops: the character at `i`, after an escaping `%` or not. */
  lemma ScanChar(s: string, at: nat, from: nat, i: nat, xs: seq<Argument>, done: seq<LogElement>)
    requires at <= from <= i < |s| && Scanned(s, at, from, xs, done)
    requires if i == from then s[i] != '%' else i == from + 1 && s[from] == '%' && s[i] == '%'
    ensures Scanned(s, at, i + 1, xs, done + [Char(s[i])])
  {
    var format, rest := s[from..], s[i + 1..];
    assert rest == format[i + 1 - from..];
    assert Tokens(format) == [Literal(s[i])] + Tokens(rest);
    ScanLiteral(format, rest, s[i], xs);
    Associative(done, [Char(s[i])], Pushed(rest, xs));
  }

  lemma HoleAt(s: string, i: nat)
    requires i < |s| && s[i] == '%' && At(s, i + 1) != '%'
    ensures Tokens(s[i..]) == [Hole] + Tokens(s[i + 1..])
  {
    assert s[i..][1..] == s[i + 1..];
  }

  lemma ScanToHole(s: string, at: nat, i: nat, xs: seq<Argument>, done: seq<LogElement>)
    requires at <= i < |s| && s[i] == '%' && At(s, i + 1) != '%' && Scanned(s, at, i, xs, done)
    ensures xs == [] ==> Judge(s[at..], xs) == MissingArguments && Pushed(s[at..], xs) == done
    ensures xs != [] ==>
      && Judge(s[at..], xs) == Judge(s[i + 1..], xs[1..])
      && Pushed(s[at..], xs) == done + (xs[0] + Pushed(s[i + 1..], xs[1..]))
  {
    HoleAt(s, i);
    if xs == [] {
      ScanSurplus(s[i..], s[i + 1..]);
      assert done + [] == done;
    } else {
      ScanHole(s[i..], s[i + 1..], xs);
    }
  }

  lemma ScanEnd(s: string, at: nat, xs: seq<Argument>, done: seq<LogElement>)
    requires at <= |s| && Scanned(s, at, |s|, xs, done)
    ensures Judge(s[at..], xs) == if xs == [] then Completed else ExtraArguments
    ensures Pushed(s[at..], xs) == done
  {
    assert s[|s|..] == [];
    assert done + [] == done;
  }

  /** The argument at a hole, and then the rest of format and arguments, complete the call. */
  lemma HoleFilled(s: string, at: nat, i: nat, value: LogArgument, args: seq<LogArgument>,
                   done: seq<LogElement>, start: Shared<LogWord>)
    requires start.Valid() && at <= i < |s| && s[i] == '%' && At(s, i + 1) != '%'
    requires Scanned(s, at, i, Arguments([value] + args), done)
    ensures Judge(s[at..], Arguments([value] + args)) == Judge(s[i + 1..], Arguments(args))
    ensures PushAll(start, AllWords(Pushed(s[at..], Arguments([value] + args)))) ==
            PushAll(PushAll(PushAll(start, AllWords(done)), AllWords(Elements(value))),
                    AllWords(Pushed(s[i + 1..], Arguments(args))))
  {
    hide AllWords, PushAll, Arguments, Elements, Judge, Pushed, Scanned;
    var xs := Arguments([value] + args);
    ArgumentsCons(value, args);
    assert xs[1..] == Arguments(args);
    ScanToHole(s, at, i, xs, done);
    PushTwoMore(start, done, Elements(value), Pushed(s[i + 1..], Arguments(args)));
  }

  class Logger {
    const queue: LFQueue<LogWord>
    /** What has gone into the output stream, as the pairs of words read. */
    var file: seq<seq<LogWord>>

    ghost predicate Valid()
      reads this, queue, queue.store
    {
      queue.Valid()
    }

    constructor (capacity: nat)
      requires 0 < capacity < SIZE_MODULUS
      ensures Valid() && file == [] && fresh(queue) && fresh(queue.store)
      ensures queue.View() == Shared(seq(capacity, i => Words(Char('\0'))), 0, 0, 0)
    {
      queue := new LFQueue(capacity, Words(Char('\0')));
      file := [];
    }

    method PushElement(e: LogElement)
      requires Valid()
      modifies queue, queue.store
      ensures Valid() && queue.View() == old(queue.View()).Push(Words(e))
    {
      var slot := queue.GetNextToWriteTo();
      queue.store[slot] := Words(e);
      queue.UpdateNextToWriteTo();
    }

    /** Characters up to the terminator. */
    method PushChars(value: string)
      requires Valid()
      modifies queue, queue.store
      ensures Valid()
      ensures queue.View() == PushAll(old(queue.View()), AllWords(Chars(CStr(value))))
    {
      ghost var start, text := queue.View(), CStr(value);
      var i := 0;
      assert Chars(text[..0]) == [] && AllWords([]) == [];
      assert queue.View() == PushAll(start, []);
      hide CStr, PushAll, AllWords, Chars, Words, Shared.Push;
      TextAt(value, 0);
      while At(value, i) != '\0'
        invariant Valid()
        invariant i <= |text| <= |value|
        invariant At(value, i) == (if i < |text| then text[i] else '\0')
        invariant queue.View() == PushAll(start, AllWords(Chars(text[..i])))
        decreases |value| - i
      {
        PushElement(Char(value[i]));
        NextChar(start, text, i);
        i := i + 1;
        TextAt(value, i);
      }
      assert text[..i] == text;
    }

    method PushArgument(a: LogArgument)
      requires Valid()
      modifies queue, queue.store
      ensures Valid()
      ensures queue.View() == PushAll(old(queue.View()), AllWords(Elements(a)))
      ensures match a
        case Value(e) => queue.View() == old(queue.View()).Push(Words(e))
        case Pointer(chars) => queue.View() == PushAll(old(queue.View()), AllWords(Chars(CStr(chars))))
        case Object(text) => queue.View() == PushAll(old(queue.View()), AllWords(Chars(CStr(text))))
    {
      match a {
        case Value(e) =>
          ghost var start := queue.View();
          PushElement(e);
          assert AllWords([e]) == [] + [Words(e)];
          PushAllOne(start, [], Words(e));
        case Pointer(chars) => PushChars(chars);
        case Object(text) => PushChars(text);
      }
    }

    /**
     log with the format from position `at` on and any number of arguments. It completes exactly
     when the holes are as many as the arguments, and either way has pushed exactly the rendering
     up to the first surplus hole.
     */
    method Log(s: CString, at: nat, args: seq<LogArgument>) returns (verdict: Verdict)
      requires Valid() && at <= |s|
      modifies queue, queue.store
      ensures Valid()
      ensures verdict == Judge(s[at..], Arguments(args))
      ensures queue.View() == PushAll(old(queue.View()), AllWords(Pushed(s[at..], Arguments(args))))
      decreases |args|, 1
    {
      if args == [] {
        verdict := LogPlain(s, at);
      } else {
        assert args == [args[0]] + args[1..];
        verdict := LogWith(s, at, args[0], args[1..]);
      }
    }

    /** The overload for at least one argument. */
    method LogWith(s: CString, at: nat, value: LogArgument, args: seq<LogArgument>) returns (verdict: Verdict)
      requires Valid() && at <= |s|
      modifies queue, queue.store
      ensures Valid()
      ensures verdict == Judge(s[at..], Arguments([value] + args))
      ensures queue.View() ==
              PushAll(old(queue.View()), AllWords(Pushed(s[at..], Arguments([value] + args))))
      decreases |args| + 1, 0
    {
      ghost var start, xs := queue.View(), Arguments([value] + args);
      ghost var done: seq<LogElement> := [];
      var i := at;
      assert AllWords([]) == [];
      ScanStart(s, at, xs);
      hide AllWords, PushAll, Arguments, Elements, Judge, Pushed, Scanned;
      while At(s, i) != '\0'
        invariant Valid() && at <= i <= |s|
        invariant Scanned(s, at, i, xs, done)
        invariant queue.View() == PushAll(start, AllWords(done))
        decreases |s| - i
      {
        ghost var from := i;
        if At(s, i) == '%' {
          if At(s, i + 1) == '%' {
            i := i + 1;
          } else {
            PushArgument(value);
            verdict := Log(s, i + 1, args);
            HoleFilled(s, at, i, value, args, done, start);
            return;
          }
        }
        PushElement(Char(At(s, i)));
        ScanChar(s, at, from, i, xs, done);
        PushOneMore(start, done, Char(s[i]));
        done := done + [Char(s[i])];
        i := i + 1;
      }
      ScanEnd(s, at, xs, done);
      verdict := ExtraArguments;
    }

    /** The overload for no argument. */
    method LogPlain(s: CString, at: nat) returns (verdict: Verdict)
      requires Valid() && at <= |s|
      modifies queue, queue.store
      ensures Valid()
      ensures verdict == Judge(s[at..], [])
      ensures queue.View() == PushAll(old(queue.View()), AllWords(Pushed(s[at..], [])))
      decreases 0, 0
    {
      ghost var start := queue.View();
      ghost var done: seq<LogElement> := [];
      var i := at;
      assert AllWords([]) == [];
      ScanStart(s, at, []);
      hide AllWords, PushAll, Judge, Pushed, Scanned;
      while At(s, i) != '\0'
        invariant Valid() && at <= i <= |s|
        invariant Scanned(s, at, i, [], done)
        invariant queue.View() == PushAll(start, AllWords(done))
        decreases |s| - i
      {
        ghost var from := i;
        if At(s, i) == '%' {
          if At(s, i + 1) == '%' {
            i := i + 1;
          } else {
            ScanToHole(s, at, i, [], done);
            verdict := MissingArguments;
            return;
          }
        }
        PushElement(Char(At(s, i)));
        ScanChar(s, at, from, i, [], done);
        PushOneMore(start, done, Char(s[i]));
        done := done + [Char(s[i])];
        i := i + 1;
      }
      ScanEnd(s, at, [], done);
      verdict := Completed;
    }

    /**
     The flusher's inner loop with no producer about. It writes out the elements from the read
     index up to the write index, in ring order, or as many of them as the size admits.
     `ok` is false when the size assertion stops the process, which does not happen.
     */
    method FlushPass() returns (ok: bool)
      requires Valid()
      modifies this, queue
      ensures Valid() && ok
      ensures var was := old(queue.View()); var k := if was.Gap() <= was.size then was.Gap() else was.size;
        && file == old(file) + was.Window(k)
        && queue.View().store == was.store && queue.View().writeIndex == was.writeIndex
        && queue.View().readIndex == (was.readIndex + k) % |was.store|
        && queue.View().size == was.size - k
    {
      ghost var was, k := queue.View(), 0;
      ok := true;
      var next := queue.GetNextToRead();
      var size := queue.Size();
      Unique(was.readIndex, |was.store|, 0, was.readIndex);
      assert was.Window(0) == [];
      hide Shared.Window, Shared.Gap, Shared.Remove, Shared.PublishRead, Passed;
      while size != 0 && next.Some?
        invariant Valid() && ok
        invariant k <= was.Gap() && k <= was.size
        invariant next == queue.View().NextToRead() && size == queue.View().size
        invariant queue.View().Gap() == was.Gap() - k
        invariant queue.View() == Passed(was, k)
        invariant file == old(file) + was.Window(k)
        decreases size
      {
        Associative(old(file), was.Window(k), [queue.store[next.value]]);
        file := file + [queue.store[next.value]];
        RemoveGap(queue.View());
        PassTurn(was, k);
        ok := queue.UpdateReadIndex();
        k := k + 1;
        next := queue.GetNextToRead();
        size := queue.Size();
      }
    }
  }

  lemma PushOneMore(start: Shared<LogWord>, done: seq<LogElement>, e: LogElement)
    requires start.Valid()
    ensures PushAll(start, AllWords(done + [e])) == PushAll(start, AllWords(done)).Push(Words(e))
  {
    AllWordsConcat(done, [e]);
    assert AllWords([e]) == [Words(e)];
    PushAllOne(start, AllWords(done), Words(e));
  }

  lemma NextChar(start: Shared<LogWord>, text: string, i: nat)
    requires start.Valid() && i < |text|
    ensures PushAll(start, AllWords(Chars(text[..i + 1]))) ==
            PushAll(start, AllWords(Chars(text[..i]))).Push(Words(Char(text[i])))
  {
    hide PushAll, AllWords;
    PushOneMore(start, Chars(text[..i]), Char(text[i]));
    assert Chars(text[..i + 1]) == Chars(text[..i]) + [Char(text[i])];
  }

  lemma PushTwoMore(start: Shared<LogWord>, done: seq<LogElement>, a: seq<LogElement>, b: seq<LogElement>)
    requires start.Valid()
    ensures PushAll(start, AllWords(done + (a + b))) ==
            PushAll(PushAll(PushAll(start, AllWords(done)), AllWords(a)), AllWords(b))
  {
    AllWordsConcat(done, a + b);
    AllWordsConcat(a, b);
    PushAllConcat(start, AllWords(done), AllWords(a) + AllWords(b));
    PushAllConcat(PushAll(start, AllWords(done)), AllWords(a), AllWords(b));
  }

  /**
   FlushPass takes as many elements as the interleaving model drains: in a settled state of the
   model the gap between the indices is the backlog modulo the capacity, and the size admits it.
   */
  lemma GapIsLeft<X>(c: Config<X>, s: State<X>)
    requires c.Valid() && Settled(c, s) && s.consumer == Fetching
    ensures s.q.Gap() == Left(c, s) <= s.q.size == s.Backlog()
  {
    SlotDistance(s.pushes, s.pops, c.capacity);
    LeftBounds(c, s);
  }

  // ---------------------------------------------------------------------------------------------
  // From the calls to the file, over every interleaving.

  datatype Call = Call(format: CString, args: seq<LogArgument>)

  predicate Balanced(call: Call) {
    Judge(call.format, Arguments(call.args)) == Completed
  }

  /** The elements that a sequence of calls pushes; an unbalanced call stops the process. */
  function Script(calls: seq<Call>): seq<LogElement> {
    if calls == [] then []
    else
      Pushed(calls[0].format, Arguments(calls[0].args)) +
      if Balanced(calls[0]) then Script(calls[1..]) else []
  }

  /**
   An argument at a hole, in the middle of any text: a value is pushed as itself, a pointer or a
   string object as its characters before the first NUL.
   */
  lemma ArgumentInText(a: string, b: string, arg: LogArgument)
    requires b == [] || b[0] != '%'
    ensures var format, xs := Doubled(a) + "%" + Doubled(b), Arguments([arg]);
      && Judge(format, xs) == Completed
      && (arg.Value? ==> Pushed(format, xs) == Chars(a) + [arg.e] + Chars(b))
      && (arg.Pointer? ==> Pushed(format, xs) == Chars(a) + Chars(CStr(arg.chars)) + Chars(b))
      && (arg.Object? ==> Pushed(format, xs) == Chars(a) + Chars(CStr(arg.text)) + Chars(b))
  {
    hide Judge, Pushed, Chars, CStr, Doubled;
    HoleInText(a, b, Elements(arg));
    assert Arguments([arg]) == [Elements(arg)];
  }

  /** A fault in one call: what precedes it is pushed, and of it what precedes the fault; nothing else. */
  lemma {:induction false} ScriptStops(before: seq<Call>, bad: Call, after: seq<Call>)
    requires forall i :: 0 <= i < |before| ==> Judge(before[i].format, Arguments(before[i].args)) == Completed
    requires Judge(bad.format, Arguments(bad.args)) != Completed
    ensures Script(before + [bad] + after) == Script(before) + Pushed(bad.format, Arguments(bad.args))
    decreases |before|
  {
    hide Judge, Pushed, Arguments;
    var calls := before + [bad] + after;
    if before == [] {
      assert calls[0] == bad;
    } else {
      var first := Pushed(before[0].format, Arguments(before[0].args));
      ScriptStops(before[1..], bad, after);
      assert calls[0] == before[0] && calls[1..] == before[1..] + [bad] + after;
      Associative(first, Script(before[1..]), Pushed(bad.format, Arguments(bad.args)));
    }
  }

  function Join(parts: seq<string>): string {
    if parts == [] then [] else Join(parts[..|parts| - 1]) + parts[|parts| - 1]
  }

  lemma {:induction false} JoinConcat(a: seq<string>, b: seq<string>)
    ensures Join(a + b) == Join(a) + Join(b)
    decreases |b|
  {
    if b == [] {
      assert a + b == a;
    } else {
      var k := |b| - 1;
      JoinConcat(a, b[..k]);
      assert (a + b)[..|a + b| - 1] == a + b[..k];
      Associative(Join(a), Join(b[..k]), b[k]);
    }
  }

  /** The text of a file into which the flusher's switch has printed each pair of words read. */
  function Written(to: Stream, out: seq<seq<LogWord>>): string {
    Join(seq(|out|, i requires 0 <= i < |out| => Switch(to, out[i])))
  }

  /** The text of elements: each one's own value, one after another. */
  function Text(to: Stream, es: seq<LogElement>): string {
    Join(seq(|es|, i requires 0 <= i < |es| => Shown(to, es[i])))
  }

  lemma TextConcat(to: Stream, a: seq<LogElement>, b: seq<LogElement>)
    ensures Text(to, a + b) == Text(to, a) + Text(to, b)
  {
    hide Join, Shown;
    var pa := seq(|a|, i requires 0 <= i < |a| => Shown(to, a[i]));
    var pb := seq(|b|, i requires 0 <= i < |b| => Shown(to, b[i]));
    JoinConcat(pa, pb);
    assert seq(|a + b|, i requires 0 <= i < |a + b| => Shown(to, (a + b)[i])) == pa + pb;
  }

  /** Nothing but the value of an element is in its text. */
  lemma TextOne(to: Stream, e: LogElement)
    ensures Text(to, [e]) == Shown(to, e)
  {
    hide Shown;
    assert seq(1, i requires 0 <= i < 1 => Shown(to, [e][i])) == [Shown(to, e)];
    assert Join([Shown(to, e)]) == [] + Shown(to, e);
  }

  /** Whole elements, written in order, are their text. */
  lemma WrittenIsText(to: Stream, es: seq<LogElement>)
    ensures Written(to, AllWords(es)) == Text(to, es)
  {
    hide Join, Shown, Switch, Words;
    var out := AllWords(es);
    forall i | 0 <= i < |es| ensures Switch(to, out[i]) == Shown(to, es[i]) {
      SwitchShows(to, es[i]);
    }
    assert seq(|out|, i requires 0 <= i < |out| => Switch(to, out[i])) ==
           seq(|es|, i requires 0 <= i < |es| => Shown(to, es[i]));
  }

  lemma TextPrefix(to: Stream, es: seq<LogElement>, k: nat)
    requires k <= |es|
    ensures Text(to, es[..k]) <= Text(to, es)
  {
    hide Text;
    TextConcat(to, es[..k], es[k..]);
    assert es[..k] + es[k..] == es;
  }

  /** The text of one call: its tokens in order, each hole replaced by its argument. */
  function CallText(to: Stream, call: Call): string
    requires Balanced(call)
  {
    Text(to, Fill(Tokens(call.format), Arguments(call.args)))
  }

  function FileText(to: Stream, calls: seq<Call>): string
    requires forall i :: 0 <= i < |calls| ==> Balanced(calls[i])
  {
    if calls == [] then [] else CallText(to, calls[0]) + FileText(to, calls[1..])
  }

  lemma {:induction false} ScriptText(to: Stream, calls: seq<Call>)
    requires forall i :: 0 <= i < |calls| ==> Balanced(calls[i])
    ensures Text(to, Script(calls)) == FileText(to, calls)
  {
    if calls != [] {
      var first := Pushed(calls[0].format, Arguments(calls[0].args));
      ScriptText(to, calls[1..]);
      TextConcat(to, first, Script(calls[1..]));
    }
  }

  /** Characters that print as themselves make up their own text. */
  lemma {:induction false} CharsText(to: Stream, s: string)
    requires forall x :: to.c(x) == [x]
    ensures Text(to, Chars(s)) == s
    decreases |s|
  {
    hide Text;
    if s == [] {
      NoText(to);
    } else {
      var k := |s| - 1;
      CharsText(to, s[..k]);
      assert Chars(s) == Chars(s[..k]) + [Char(s[k])];
      TextConcat(to, Chars(s[..k]), [Char(s[k])]);
      TextOne(to, Char(s[k]));
      OneMore(s, k);
    }
  }

  lemma NoText(to: Stream)
    ensures Text(to, []) == []
  {
  }

  /** Logging any text with its `%` doubled, and a value in the middle of it, writes text and value. */
  lemma ValueInText(to: Stream, a: CString, b: CString, e: LogElement)
    requires (forall x :: to.c(x) == [x]) && (b == [] || b[0] != '%')
    ensures var call := Call(Doubled(a) + "%" + Doubled(b), [Value(e)]);
      Balanced(call) && CallText(to, call) == a + Shown(to, e) + b
  {
    hide Text, Chars, Doubled, Shown, Fill, Tokens;
    ArgumentInText(a, b, Value(e));
    TextConcat(to, Chars(a) + [e], Chars(b));
    TextConcat(to, Chars(a), [e]);
    TextOne(to, e);
    CharsText(to, a);
    CharsText(to, b);
  }

  /** The logger with a queue of some capacity, running some calls. */
  function Setup(capacity: nat, calls: seq<Call>): (c: Config<LogWord>)
    requires 0 < capacity < 0x1_0000_0000_0000_0000 && |Script(calls)| < 0x1_0000_0000_0000_0000
    ensures c.Valid() && c.reader == Flusher && c.capacity == capacity
    ensures c.program == AllWords(Script(calls))
  {
    Config(Flusher, capacity, Words(Char('\0')), AllWords(Script(calls)))
  }

  /**
   End to end. Let the producer run any calls, balanced or not, and start to store an element only
   with the flusher's margin. Then in every state of every interleaving the file holds the
   text of the first so many elements that the calls push, in order and whole; and a closed file
   holds the text of all of them.
   */
  lemma {:induction false} EndToEnd(capacity: nat, calls: seq<Call>, sched: seq<Thread>, to: Stream)
    requires 0 < capacity < 0x1_0000_0000_0000_0000 && |Script(calls)| < 0x1_0000_0000_0000_0000
    requires Paced(Setup(capacity, calls), sched, Margin(Flusher))
    ensures var s := Run(Setup(capacity, calls), sched);
      && |s.out| <= s.pushes <= |Script(calls)|
      && Written(to, s.out) == Text(to, Script(calls)[..|s.out|])
      && (s.producer == Closed ==> Written(to, s.out) == Text(to, Script(calls)))
  {
    hide Step, Exec;
    var c := Setup(capacity, calls);
    OutputIsPrefix(c, sched);
    var s := Run(c, sched);
    assert c.program[..|s.out|] == AllWords(Script(calls)[..|s.out|]);
    WrittenIsText(to, Script(calls)[..|s.out|]);
    WrittenIsText(to, Script(calls));
    if s.producer == Closed {
      CleanShutdown(c, sched);
    }
  }

  /** For balanced calls: always a prefix of the text of the calls, and all of it once closed. */
  lemma {:induction false} EndToEndBalanced(capacity: nat, calls: seq<Call>, sched: seq<Thread>,
                                          to: Stream)
    requires 0 < capacity < 0x1_0000_0000_0000_0000 && |Script(calls)| < 0x1_0000_0000_0000_0000
    requires forall i :: 0 <= i < |calls| ==> Balanced(calls[i])
    requires Paced(Setup(capacity, calls), sched, Margin(Flusher))
    ensures var s := Run(Setup(capacity, calls), sched);
      && Written(to, s.out) <= FileText(to, calls)
      && (s.producer == Closed ==> Written(to, s.out) == FileText(to, calls))
  {
    hide Step, Exec;
    EndToEnd(capacity, calls, sched, to);
    ScriptText(to, calls);
    TextPrefix(to, Script(calls), |Run(Setup(capacity, calls), sched).out|);
  }

  /**
   And nothing is lost in the end: a producer of balanced calls that keeps two slots unused and
   is given its turns closes a file that is the text of the calls, whatever the interleaving.
   */
  lemma {:induction false} EveryCallIsWritten(capacity: nat, calls: seq<Call>, to: Stream,
                                              sched: seq<Thread>, drain: seq<Thread>, stop: seq<Thread>,
                                              exit: seq<Thread>, close: seq<Thread>)
    requires 2 <= capacity < 0x1_0000_0000_0000_0000 && |Script(calls)| < 0x1_0000_0000_0000_0000
    requires forall i :: 0 <= i < |calls| ==> Balanced(calls[i])
    requires Paced(Setup(capacity, calls), sched, 2)
    requires Turns(sched, Producer) >= |Script(calls)| * PushSteps(Setup(capacity, calls))
    requires EnoughTurns(Setup(capacity, calls), capacity, drain, stop, exit, close)
    ensures var s := Run(Setup(capacity, calls), sched + (drain + stop + exit + close));
      s.producer == Closed && Written(to, s.out) == FileText(to, calls)
  {
    hide Step, Exec, Turns;
    PacedLoggerLives(Setup(capacity, calls), sched, drain, stop, exit, close);
    WrittenIsText(to, Script(calls));
    ScriptText(to, calls);
  }
}
