/** Parser combinators over an immutable input. A loop of the source is a method here, proved equal to the function that
    the laws are about. */
module Parsec {
  import opened Bytes
  import Wrappers

  datatype Reason = Unmatched | Incomplete | Exceeded

  /** A result, or a failure, each with the input that remains; or a Go panic. */
  datatype PResult<+R> = Ok(value: R, rem: seq<byte>) | Fail(rem: seq<byte>, err: Reason) | Panic

  type Parser<R> = seq<byte> -> PResult<R>

  const MINUS: byte := 45
  const ZERO: byte := 48
  const COLON: byte := 58

  // ---------- laws ----------

  ghost predicate IsSuffix(t: seq<byte>, s: seq<byte>) {
    |t| <= |s| && t == s[|s| - |t|..]
  }

  /** A success leaves a suffix of the input, a failure leaves the input unchanged, and nothing panics. */
  ghost predicate Obeys<R>(r: PResult<R>, s: seq<byte>) {
    match r
    case Ok(_, rem) => IsSuffix(rem, s)
    case Fail(rem, _) => rem == s
    case Panic => false
  }

  ghost predicate Lawful<R>(p: Parser<R>) {
    forall s :: Obeys(p(s), s)
  }

  /** A success takes at least one byte. */
  ghost predicate Strict<R>(p: Parser<R>) {
    forall s :: p(s).Ok? ==> |p(s).rem| < |s|
  }

  lemma SuffixTrans(u: seq<byte>, t: seq<byte>, s: seq<byte>)
    requires IsSuffix(u, t) && IsSuffix(t, s)
    ensures IsSuffix(u, s)
  {
    assert s[|s| - |t|..][|t| - |u|..] == s[|s| - |u|..];
  }

  lemma DropIsSuffix(s: seq<byte>, n: nat)
    requires n <= |s|
    ensures IsSuffix(s[n..], s)
  {
  }

  // ---------- simple parsers ----------

  function Tag(t: byte, s: seq<byte>): PResult<byte> {
    if s == [] then Fail(s, Incomplete) else if s[0] == t then Ok(t, s[1..]) else Fail(s, Unmatched)
  }

  /** Of the bytes, only the ten ASCII digits are digits to unicode.IsDigit. */
  predicate IsDigit(c: byte) {
    ZERO <= c < COLON
  }

  function Digit(s: seq<byte>): PResult<int> {
    if s == [] then Fail(s, Incomplete) else if IsDigit(s[0]) then Ok(s[0] - ZERO, s[1..]) else Fail(s, Unmatched)
  }

  /** Tag and Digit take one byte, the one they are looking for. */
  lemma OneByteParsers(t: byte, s: seq<byte>)
    ensures Obeys(Tag(t, s), s) && (Tag(t, s).Ok? <==> s != [] && s[0] == t)
    ensures Tag(t, s).Ok? ==> s == [t] + Tag(t, s).rem
    ensures Obeys(Digit(s), s) && (Digit(s).Ok? <==> s != [] && IsDigit(s[0]))
    ensures Digit(s).Ok? ==> 0 <= Digit(s).value <= 9 && s == [ZERO + Digit(s).value] + Digit(s).rem
  {
  }

  /** The length of the longest prefix of s all of whose bytes satisfy f. */
  function Span(f: byte -> bool, s: seq<byte>): (n: nat)
    ensures n <= |s| && (forall i :: 0 <= i < n ==> f(s[i])) && (n < |s| ==> !f(s[n]))
  {
    if s == [] || !f(s[0]) then 0 else 1 + Span(f, s[1..])
  }

  lemma SpanUnique(f: byte -> bool, s: seq<byte>, n: nat)
    requires n <= |s| && (forall i :: 0 <= i < n ==> f(s[i])) && (n < |s| ==> !f(s[n]))
    ensures Span(f, s) == n
  {
  }

  /** The longest non-empty prefix that satisfies f. As written the byte after the end of the input is read. */
  function TakingWhile(b: Build, f: byte -> bool, s: seq<byte>): PResult<seq<byte>> {
    var n := Span(f, s);
    if n == 0 then Fail(s, Unmatched)
    else if b.AsWritten? && n == |s| then Panic
    else Ok(s[..n], s[n..])
  }

  method TakeWhile(b: Build, f: byte -> bool, s: seq<byte>) returns (r: PResult<seq<byte>>)
    ensures r == TakingWhile(b, f, s)
  {
    if s == [] {
      return Fail(s, Unmatched);
    }
    var rem, res, curr := s, [], s[0];
    while rem != [] && f(curr)
      invariant |res| + |rem| == |s| && res == s[..|res|] && rem == s[|res|..]
      invariant forall i :: 0 <= i < |res| ==> f(s[i])
      invariant (rem != [] ==> curr == rem[0]) && (b.AsWritten? ==> rem != [])
      decreases |rem|
    {
      res, rem := res + [curr], rem[1..];
      if rem == [] {
        SpanUnique(f, s, |s|);
        if b.AsWritten? {
          return Panic; // reads the next byte of an empty input
        }
      } else {
        curr := rem[0];
      }
    }
    SpanUnique(f, s, |res|);
    r := if res == [] then Fail(s, Unmatched) else Ok(res, rem);
  }

  /** The bytes up to the first one that satisfies f, which has to be there, and not at once. */
  function TakingTill(f: byte -> bool, s: seq<byte>): PResult<seq<byte>> {
    var n := Span((c: byte) => !f(c), s);
    if s == [] then Fail(s, Incomplete)
    else if n == 0 || n == |s| then Fail(s, Unmatched)
    else Ok(s[..n], s[n..])
  }

  method TakeTill(f: byte -> bool, s: seq<byte>) returns (r: PResult<seq<byte>>)
    ensures r == TakingTill(f, s)
  {
    if s == [] {
      return Fail(s, Incomplete);
    }
    var rem, res, curr := s, [], s[0];
    ghost var g := (c: byte) => !f(c);
    while rem != []
      invariant |res| + |rem| == |s| && res == s[..|res|] && rem == s[|res|..]
      invariant forall i :: 0 <= i < |res| ==> g(s[i])
      invariant rem != [] ==> curr == rem[0]
      decreases |rem|
    {
      if f(curr) {
        SpanUnique(g, s, |res|);
        return if res == [] then Fail(s, Unmatched) else Ok(res, rem);
      }
      res, rem := res + [curr], rem[1..];
      if rem != [] {
        curr := rem[0];
      }
    }
    SpanUnique(g, s, |s|);
    r := Fail(s, Unmatched);
  }

  /** n bytes. Nothing but the end of the input can stop it: every byte is a valid rune. If n is not positive one byte
      is taken all the same, and lost, because the failure that is then reported leaves the input without it. */
  function TakingN(n: int, s: seq<byte>): PResult<seq<byte>> {
    if s == [] then Fail(s, Incomplete)
    else if n < 1 then Fail(s[1..], Exceeded)
    else if n <= |s| then Ok(s[..n], s[n..])
    else Fail(s, Incomplete)
  }

  method StrN(n: int, s: seq<byte>) returns (r: PResult<seq<byte>>)
    ensures r == TakingN(n, s)
  {
    var rem, res, num := s, [], 0;
    while true
      invariant |res| == num && res + rem == s && (num == 0 || num < n)
      decreases |rem|
    {
      if rem == [] {
        return Fail(s, Incomplete);
      }
      // utf8.ValidRune holds of every byte, so the branch for bytes of longer characters is not reachable.
      assert (res + [rem[0]]) + rem[1..] == s;
      res, rem, num := res + [rem[0]], rem[1..], num + 1;
      if num >= n {
        assert res == s[..num] && rem == s[num..];
        return if num > n then Fail(rem, Exceeded) else Ok(res, rem);
      }
    }
  }

  /** StrN keeps the law exactly for positive lengths (or on an empty input), and then takes exactly n bytes. */
  lemma StrNLaw(n: int, s: seq<byte>)
    ensures Obeys(TakingN(n, s), s) <==> n >= 1 || s == []
    ensures n >= 1 ==> (TakingN(n, s).Ok? <==> n <= |s|)
    ensures TakingN(n, s).Ok? ==> |TakingN(n, s).value| == n && s == TakingN(n, s).value + TakingN(n, s).rem
  {
  }

  // ---------- numbers ----------

  const INT_RANGE := 0x1_0000_0000_0000_0000
  const MAX_INT := 0x7FFF_FFFF_FFFF_FFFF

  /** Two's complement with 64 bits, as a Go int has. */
  function Wrap64(x: int): (w: int)
    ensures -MAX_INT - 1 <= w <= MAX_INT
    decreases if x > MAX_INT then x - MAX_INT else if x < -MAX_INT - 1 then -x - MAX_INT else 0
  {
    if x > MAX_INT then Wrap64(x - INT_RANGE) else if x < -MAX_INT - 1 then Wrap64(x + INT_RANGE) else x
  }

  /** The number that a string of digits stands for. */
  function DigitsValue(ds: seq<byte>): int {
    if ds == [] then 0 else DigitsValue(ds[..|ds| - 1]) * 10 + (ds[|ds| - 1] - ZERO)
  }

  /** Wrapping early or late makes no difference. */
  lemma WrapStep(x: int, d: int)
    ensures Wrap64(Wrap64(x) * 10 + d) == Wrap64(x * 10 + d)
  {
    var k := WrapTurns(x);
    WrapPeriod(x * 10 + d, 10 * k);
  }

  lemma {:induction false} WrapTurns(x: int) returns (k: int)
    ensures Wrap64(x) == x + k * INT_RANGE
    decreases if x > MAX_INT then x - MAX_INT else if x < -MAX_INT - 1 then -x - MAX_INT else 0
  {
    k := 0;
    if x > MAX_INT {
      k := WrapTurns(x - INT_RANGE);
      k := k - 1;
    } else if x < -MAX_INT - 1 {
      k := WrapTurns(x + INT_RANGE);
      k := k + 1;
    }
  }

  lemma {:induction false} WrapPeriod(x: int, k: int)
    ensures Wrap64(x + k * INT_RANGE) == Wrap64(x)
    decreases if k < 0 then -k else k
  {
    if k > 0 {
      WrapPeriod(x, k - 1);
      assert Wrap64(x + k * INT_RANGE) == Wrap64(x + (k - 1) * INT_RANGE);
    } else if k < 0 {
      WrapPeriod(x, k + 1);
      assert Wrap64(x + k * INT_RANGE) == Wrap64(x + (k + 1) * INT_RANGE);
    }
  }

  /** A number with an optional sign. As written, a number that comes to zero counts as none: a failure, or, at the end
      of the input, where no error has been met, a success with no result. */
  function Numbering(b: Build, s: seq<byte>): PResult<Wrappers.Option<int>> {
    if s == [] then Fail(s, Incomplete)
    else
      var t := Unsigned(s);
      var n := Span(IsDigit, t);
      var num := Wrap64(DigitsValue(t[..n]));
      if if b.AsWritten? then num == 0 else n == 0 then NoNumber(b, s, t[n..])
      else Ok(Wrappers.Some(if s[0] == MINUS then Wrap64(-num) else num), t[n..])
  }

  /** s without the sign, if it has one. */
  function Unsigned(s: seq<byte>): (t: seq<byte>)
    ensures IsSuffix(t, s)
  {
    if s != [] && s[0] == MINUS then s[1..] else s
  }

  function NoNumber(b: Build, s: seq<byte>, rem: seq<byte>): (r: PResult<Wrappers.Option<int>>)
    ensures Obeys(r, s)
  {
    if rem != [] then Fail(s, Unmatched) else if b.AsWritten? then Ok(Wrappers.None, s) else Fail(s, Incomplete)
  }

  method Number(b: Build, s: seq<byte>) returns (r: PResult<Wrappers.Option<int>>)
    ensures r == Numbering(b, s)
  {
    if s == [] {
      return Fail(s, Incomplete);
    }
    var sign := Tag(MINUS, s); // the first turn of the loop
    var neg, rem := sign.Ok?, sign.rem;
    var num, n := Digits(rem);
    rem := rem[n..];
    if (b.AsWritten? && num == 0) || (b.AsCommented? && n == 0) {
      return NoNumber(b, s, rem);
    }
    r := Ok(Wrappers.Some(if neg then Wrap64(-num) else num), rem);
  }

  /** The number that the leading digits of t make, and how many they are. */
  method Digits(t: seq<byte>) returns (num: int, n: nat)
    ensures n == Span(IsDigit, t) && num == Wrap64(DigitsValue(t[..n]))
  {
    var rem := t;
    num, n := 0, 0;
    while rem != []
      invariant n <= |t| && rem == t[n..] && num == Wrap64(DigitsValue(t[..n]))
      invariant forall i :: 0 <= i < n ==> IsDigit(t[i])
      decreases |rem|
    {
      var res := Digit(rem);
      if !res.Ok? {
        break;
      }
      assert t[..n + 1][..n] == t[..n];
      WrapStep(DigitsValue(t[..n]), res.value);
      num, rem, n := Wrap64(num * 10 + res.value), res.rem, n + 1;
    }
    SpanUnique(IsDigit, t, n);
  }

  /** Number differs from its comment exactly on the numbers that come to zero, and on a minus sign with nothing behind
      it. */
  lemma WrittenNumber(s: seq<byte>)
    ensures var t := Unsigned(s);
            var n := Span(IsDigit, t);
            Numbering(AsWritten, s) == Numbering(AsCommented, s) <==>
              s == [] || (if n > 0 then Wrap64(DigitsValue(t[..n])) != 0 else t != [])
  {
  }

  lemma NumberObeys(b: Build, s: seq<byte>)
    ensures Obeys(Numbering(b, s), s)
  {
    var t := Unsigned(s);
    AfterDigits(t, s, Span(IsDigit, t));
  }

  lemma AfterDigits(t: seq<byte>, s: seq<byte>, n: nat)
    requires IsSuffix(t, s) && n <= |t|
    ensures IsSuffix(t[n..], s)
  {
    DropIsSuffix(t, n);
    SuffixTrans(t[n..], t, s);
  }

  /** As written TakeWhile panics exactly when all of a non-empty input satisfies the predicate. */
  lemma TakeWhileObeys(b: Build, f: byte -> bool, s: seq<byte>)
    ensures Obeys(TakingWhile(b, f, s), s) <==> b.AsCommented? || s == [] || Span(f, s) < |s|
  {
    DropIsSuffix(s, Span(f, s));
  }

  lemma TakeWhileTakes(b: Build, f: byte -> bool, s: seq<byte>)
    requires TakingWhile(b, f, s).Ok?
    ensures var r := TakingWhile(b, f, s); s == r.value + r.rem && r.value != [] && forall c :: c in r.value ==> f(c)
  {
  }

  lemma TakeTillObeys(f: byte -> bool, s: seq<byte>)
    ensures Obeys(TakingTill(f, s), s)
  {
    DropIsSuffix(s, Span((c: byte) => !f(c), s));
  }

  // ---------- combinators ----------

  /** p and then q, whose result counts. */
  function Then<A, B>(p: Parser<A>, q: Parser<B>, s: seq<byte>): PResult<B> {
    match p(s)
    case Panic => Panic
    case Fail(_, _) => Fail(s, Unmatched)
    case Ok(_, rem) =>
      if rem == [] then Fail(s, Incomplete)
      else match q(rem)
        case Fail(_, e) => Fail(s, e)
        case r => r
  }

  /** p and then q; the result of p counts. As written, what q matched is not consumed. */
  function ThenDiscard<A, B>(b: Build, p: Parser<A>, q: Parser<B>, s: seq<byte>): PResult<A> {
    match p(s)
    case Panic => Panic
    case Fail(_, _) => Fail(s, Unmatched)
    case Ok(v, rem) =>
      if rem == [] then Fail(s, Incomplete)
      else match q(rem)
        case Panic => Panic
        case Fail(_, _) => Fail(s, Unmatched)
        case Ok(_, rem') => Ok(v, if b.AsWritten? then rem else rem')
  }

  /** The first of ps that succeeds. */
  function Alt<R>(ps: seq<Parser<R>>, s: seq<byte>): PResult<R> {
    if s == [] then Fail(s, Incomplete) else First(ps, s)
  }

  function First<R>(ps: seq<Parser<R>>, s: seq<byte>): PResult<R> {
    if ps == [] then Fail(s, Unmatched)
    else match ps[0](s)
      case Fail(_, _) => First(ps[1..], s)
      case r => r
  }

  /** Bytes that satisfy f, between two others. */
  function GuardedWhile(b: Build, left: byte, right: byte, f: byte -> bool, s: seq<byte>): PResult<seq<byte>> {
    match Then(t => Tag(left, t), t => TakingWhile(b, f, t), s)
    case Panic => Panic
    case Fail(_, e) => Fail(s, e)
    case Ok(v, rem) =>
      if rem == [] then Fail(s, Incomplete)
      else match Tag(right, rem)
        case Fail(_, e) => Fail(s, e)
        case Ok(_, rem') => Ok(v, rem')
  }

  lemma ThenObeys<A, B>(p: Parser<A>, q: Parser<B>, s: seq<byte>)
    requires Lawful(p) && Lawful(q)
    ensures Obeys(Then(p, q, s), s)
    ensures Then(p, q, s).Ok? <==> p(s).Ok? && p(s).rem != [] && q(p(s).rem).Ok?
  {
    assert Obeys(p(s), s);
    if p(s).Ok? {
      assert Obeys(q(p(s).rem), p(s).rem);
      if q(p(s).rem).Ok? {
        SuffixTrans(q(p(s).rem).rem, p(s).rem, s);
      }
    }
  }

  /** As written the remainder is right exactly when the second parser consumes nothing. */
  lemma ThenDiscardObeys<A, B>(b: Build, p: Parser<A>, q: Parser<B>, s: seq<byte>)
    requires Lawful(p) && Lawful(q)
    ensures Obeys(ThenDiscard(b, p, q, s), s)
    ensures ThenDiscard(b, p, q, s).Ok? ==>
              (ThenDiscard(b, p, q, s).rem == q(p(s).rem).rem <==> b.AsCommented? || q(p(s).rem).rem == p(s).rem)
  {
    assert Obeys(p(s), s);
    if p(s).Ok? {
      assert Obeys(q(p(s).rem), p(s).rem);
      if q(p(s).rem).Ok? {
        SuffixTrans(q(p(s).rem).rem, p(s).rem, s);
      }
    }
  }

  /** An alternative succeeds exactly if one of the parsers does, with what the first one that does returns. */
  lemma {:induction false} FirstObeys<R>(ps: seq<Parser<R>>, s: seq<byte>)
    requires forall p :: p in ps ==> Lawful(p)
    ensures Obeys(First(ps, s), s)
    ensures First(ps, s).Ok? <==> exists i :: 0 <= i < |ps| && ps[i](s).Ok?
    ensures First(ps, s).Ok? ==>
              exists i :: 0 <= i < |ps| && First(ps, s) == ps[i](s) && forall j :: 0 <= j < i ==> ps[j](s).Fail?
    decreases |ps|
  {
    if ps != [] {
      assert ps[0] in ps && Obeys(ps[0](s), s);
      FirstObeys(ps[1..], s);
      if ps[0](s).Fail? && First(ps, s).Ok? {
        var i :| 0 <= i < |ps[1..]| && First(ps[1..], s) == ps[1..][i](s) &&
            forall j :: 0 <= j < i ==> ps[1..][j](s).Fail?;
        assert forall j :: 0 < j < i + 1 ==> ps[j](s) == ps[1..][j - 1](s);
        assert First(ps, s) == ps[i + 1](s);
      }
    }
  }

  /** An alternative keeps the law, and is the first of its parsers that succeeds, on any input but the empty one. */
  lemma AltObeys<R>(ps: seq<Parser<R>>, s: seq<byte>)
    requires forall p :: p in ps ==> Lawful(p)
    ensures Obeys(Alt(ps, s), s)
    ensures Alt(ps, s).Ok? <==> s != [] && exists i :: 0 <= i < |ps| && ps[i](s).Ok?
    ensures Alt(ps, s).Ok? ==>
              exists i :: 0 <= i < |ps| && Alt(ps, s) == ps[i](s) && forall j :: 0 <= j < i ==> ps[j](s).Fail?
  {
    FirstObeys(ps, s);
  }

  /** The guarded parser keeps the law, as written unless the bytes that satisfy f run up to the end of the input. */
  lemma GuardedWhileObeys(b: Build, left: byte, right: byte, f: byte -> bool, s: seq<byte>)
    ensures Obeys(GuardedWhile(b, left, right, f, s), s) <==>
              b.AsCommented? || |s| < 2 || s[0] != left || !f(s[1]) || Span(f, s[1..]) < |s| - 1
  {
    var n := if |s| < 2 then 0 else Span(f, s[1..]);
    if |s| >= 2 && s[0] == left && 0 < n < |s| - 1 {
      assert s[1..][n..][1..] == s[n + 2..];
      DropIsSuffix(s, n + 2);
    }
  }

  lemma GuardedWhileIsGuarded(b: Build, left: byte, right: byte, f: byte -> bool, s: seq<byte>)
    requires GuardedWhile(b, left, right, f, s).Ok?
    ensures var r := GuardedWhile(b, left, right, f, s);
            s == [left] + r.value + [right] + r.rem && r.value != [] && forall c :: c in r.value ==> f(c)
  {
    var t, r := s[1..], GuardedWhile(b, left, right, f, s);
    TakeWhileTakes(b, f, t);
    assert s == [left] + (r.value + ([right] + r.rem));
  }

  /** The converse: what is guarded is found; and where nothing satisfies f there is nothing to find. */
  lemma GuardedIsFound(b: Build, left: byte, right: byte, f: byte -> bool, v: seq<byte>, rest: seq<byte>)
    requires v != [] && !f(right) && forall i :: 0 <= i < |v| ==> f(v[i])
    ensures GuardedWhile(b, left, right, f, [left] + v + [right] + rest) == Ok(v, rest)
  {
    var s, t, end := [left] + v + [right] + rest, v + ([right] + rest), [right] + rest;
    assert s == [left] + t && s[1..] == t;
    SpanUnique(f, t, |v|);
    assert t[..|v|] == v && t[|v|..] == end && end[1..] == rest;
  }

  lemma NothingGuarded(b: Build, left: byte, right: byte, f: byte -> bool, s: seq<byte>)
    requires s == [] || s[0] != left || |s| == 1 || !f(s[1])
    ensures GuardedWhile(b, left, right, f, s).Fail?
  {
  }

  // ---------- repetition ----------

  /** p as often as it succeeds and input is left. (A parser that consumes nothing makes the loop of the source run for
      ever; here it ends the repetition.) */
  function Many0<R>(p: Parser<R>, s: seq<byte>): PResult<seq<R>>
    decreases |s|
  {
    if s == [] then Ok([], s)
    else match p(s)
      case Panic => Panic
      case Fail(_, _) => Ok([], s)
      case Ok(v, rem) =>
        if |rem| >= |s| then Ok([], s)
        else match Many0(p, rem)
          case Ok(vs, rem') => Ok([v] + vs, rem')
          case r => r
  }

  method RepeatMany0<R>(p: Parser<R>, s: seq<byte>) returns (r: PResult<seq<R>>)
    requires Strict(p)
    ensures r == Many0(p, s)
  {
    var res: seq<R>, rem := [], s;
    OntoNothing([], s, Many0(p, s));
    while rem != []
      invariant Many0(p, s) == Onto(res, Many0(p, rem))
      decreases |rem|
    {
      var out := p(rem);
      OntoNothing(res, rem, Many0(p, rem));
      match out
      case Panic => return Panic;
      case Fail(_, _) => return Ok(res, rem);
      case Ok(v, rem') =>
        OntoAssociates(res, v, Many0(p, rem'));
        res, rem := res + [v], rem';
    }
    OntoNothing(res, rem, Many0(p, rem));
    r := Ok(res, rem);
  }

  function Onto<R>(vs: seq<R>, r: PResult<seq<R>>): PResult<seq<R>> {
    match r
    case Ok(ws, rem) => Ok(vs + ws, rem)
    case r => r
  }

  lemma OntoNothing<R>(vs: seq<R>, rem: seq<byte>, r: PResult<seq<R>>)
    ensures Onto(vs, Ok([], rem)) == Ok(vs, rem) && Onto([], r) == r
  {
    assert vs + [] == vs;
    assert r.Ok? ==> [] + r.value == r.value;
  }

  lemma OntoAssociates<R>(vs: seq<R>, v: R, r: PResult<seq<R>>)
    ensures Onto(vs, Onto([v], r)) == Onto(vs + [v], r)
  {
    if r.Ok? {
      assert vs + ([v] + r.value) == vs + [v] + r.value;
    }
  }

  /** p succeeds on s again and again, with these results and with rem left in the end. */
  ghost predicate Chain<R>(p: Parser<R>, s: seq<byte>, vs: seq<R>, rem: seq<byte>)
    decreases |vs|
  {
    if vs == [] then rem == s else p(s).Ok? && p(s).value == vs[0] && Chain(p, p(s).rem, vs[1..], rem)
  }

  /** Many0 of a lawful, strict parser is maximally greedy: it succeeds, with a chain of results that cannot be
      continued. */
  lemma {:induction false} Many0Greedy<R>(p: Parser<R>, s: seq<byte>)
    requires Lawful(p) && Strict(p)
    ensures Obeys(Many0(p, s), s) && Many0(p, s).Ok?
    ensures Chain(p, s, Many0(p, s).value, Many0(p, s).rem)
    ensures Many0(p, s).rem == [] || p(Many0(p, s).rem).Fail?
    decreases |s|
  {
    assert Obeys(p(s), s);
    if s != [] && p(s).Ok? {
      Many0Greedy(p, p(s).rem);
      SuffixTrans(Many0(p, p(s).rem).rem, p(s).rem, s);
      assert Many0(p, s).value[1..] == Many0(p, p(s).rem).value;
    }
  }

  /** Every chain of results is a beginning of the one that Many0 finds. */
  lemma {:induction false} Many0Longest<R>(p: Parser<R>, s: seq<byte>, vs: seq<R>, rem: seq<byte>)
    requires Lawful(p) && Strict(p) && Chain(p, s, vs, rem)
    ensures Many0(p, s).Ok? && vs <= Many0(p, s).value
    decreases |vs|
  {
    Many0Greedy(p, s);
    if vs != [] {
      assert Obeys(p(s), s);
      Many0Longest(p, p(s).rem, vs[1..], rem);
      assert vs == [vs[0]] + vs[1..];
    }
  }

  function FoldMany0<R, T>(p: Parser<R>, acc: T, f: (T, R) -> T, s: seq<byte>): PResult<T>
    decreases |s|
  {
    if s == [] then Ok(acc, s)
    else match p(s)
      case Panic => Panic
      case Fail(_, _) => Ok(acc, s)
      case Ok(v, rem) => if |rem| >= |s| then Ok(acc, s) else FoldMany0(p, f(acc, v), f, rem)
  }

  method RepeatFoldMany0<R, T>(p: Parser<R>, init: T, f: (T, R) -> T, s: seq<byte>) returns (r: PResult<T>)
    requires Strict(p)
    ensures r == FoldMany0(p, init, f, s)
  {
    var res, rem := init, s;
    while rem != []
      invariant FoldMany0(p, res, f, rem) == FoldMany0(p, init, f, s)
      decreases |rem|
    {
      var curr := p(rem);
      match curr
      case Panic => return Panic;
      case Fail(_, _) => return Ok(res, rem);
      case Ok(v, rem') => res, rem := f(res, v), rem';
    }
    r := Ok(res, rem);
  }

  /** Folding with append collects what Many0 collects. */
  lemma {:induction false} FoldWithAppend<R>(p: Parser<R>, acc: seq<R>, s: seq<byte>)
    ensures FoldMany0(p, acc, (vs: seq<R>, v: R) => vs + [v], s) == Onto(acc, Many0(p, s))
    decreases |s|
  {
    var f := (vs: seq<R>, v: R) => vs + [v];
    assert acc + [] == acc;
    if s != [] && p(s).Ok? && |p(s).rem| < |s| {
      FoldWithAppend(p, acc + [p(s).value], p(s).rem);
      OntoAssociates(acc, p(s).value, Many0(p, p(s).rem));
    }
  }

  /** p exactly n times. As written the remainder that is returned is the whole input. */
  function Counting<R>(p: Parser<R>, n: nat, s: seq<byte>): PResult<seq<R>>
    decreases n
  {
    if n == 0 then Ok([], s)
    else match p(s)
      case Panic => Panic
      case Fail(rem, e) => Fail(rem, e)
      case Ok(v, rem) => Onto([v], Counting(p, n - 1, rem))
  }

  method Count<R>(b: Build, p: Parser<R>, n: nat, s: seq<byte>) returns (r: PResult<seq<R>>)
    ensures match Counting(p, n, s)
            case Ok(vs, rem) => r == Ok(vs, if b.AsWritten? then s else rem)
            case Fail(_, e) => r == Fail(s, e)
            case Panic => r == Panic
  {
    var rem, res: seq<R> := s, [];
    OntoNothing([], s, Counting(p, n, s));
    for i := 0 to n
      invariant Counting(p, n, s) == Onto(res, Counting(p, n - i, rem))
    {
      var out := p(rem);
      match out
      case Panic => return Panic;
      case Fail(_, e) => return Fail(s, e);
      case Ok(v, rem') =>
        OntoAssociates(res, v, Counting(p, n - i - 1, rem'));
        res, rem := res + [v], rem';
    }
    OntoNothing(res, rem, Counting(p, 0, rem));
    r := Ok(res, if b.AsWritten? then s else rem);
  }

  /** Counting finds a chain of exactly n results if there is one. */
  lemma {:induction false} CountIsChain<R>(p: Parser<R>, n: nat, s: seq<byte>, vs: seq<R>, rem: seq<byte>)
    ensures Counting(p, n, s) == Ok(vs, rem) <==> |vs| == n && Chain(p, s, vs, rem)
    decreases n
  {
    if n > 0 && p(s).Ok? {
      if |vs| > 0 {
        CountIsChain(p, n - 1, p(s).rem, vs[1..], rem);
        assert vs == [vs[0]] + vs[1..];
      }
      var r := Counting(p, n - 1, p(s).rem);
      assert r.Ok? ==> ([p(s).value] + r.value)[1..] == r.value;
    }
  }
}
