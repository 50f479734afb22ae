/** Bencode (BEP 3, section "bencoding"): the parsers, and the printer they invert. */
module Bencode {
  import opened Bytes
  import opened Parsec
  import Wrappers

  const CHAR_I: byte := 105
  const CHAR_L: byte := 108
  const CHAR_D: byte := 100
  const CHAR_E: byte := 101
  const SPACE: byte := 32

  /** A tree of values. The entries of a dictionary are listed in the order in which its map is iterated. */
  datatype Value = Int(n: int) | Str(s: seq<byte>) | List(vs: seq<Value>) | Dict(es: seq<Entry>)

  datatype Entry = Entry(key: seq<byte>, value: Value)

  // ---------- strings and integers ----------

  function BencStr(b: Build, s: seq<byte>): PResult<seq<byte>> {
    match Numbering(b, s)
    case Panic => Panic
    case Fail(_, e) => Fail(s, e)
    case Ok(num, rem) =>
      match Tag(COLON, rem)
      case Panic => Panic
      case Fail(_, e) => Fail(s, e)
      case Ok(_, rem') => Prefixed(num, s, rem')
  }

  /** The string whose length has been read. Something that is not a number crashes the type assertion. */
  function Prefixed(num: Wrappers.Option<int>, s: seq<byte>, rem: seq<byte>): PResult<seq<byte>> {
    if num.None? then Panic
    else if num.value == 0 then Ok([], rem)
    else match TakingN(num.value, rem)
      case Fail(_, e) => Fail(s, e)
      case r => r
  }

  /** strconv.ParseInt without regard to its error: too large a number becomes the largest one. */
  function ParseInt(ds: seq<byte>): int {
    Min(DigitsValue(ds), MAX_INT)
  }

  function BencInt(b: Build, s: seq<byte>): PResult<int> {
    match GuardedWhile(b, CHAR_I, CHAR_E, IsDigit, s)
    case Panic => Panic
    case Fail(_, _) => Fail(s, Unmatched)
    case Ok(ds, rem) => Ok(ParseInt(ds), rem)
  }

  function AnInt(b: Build, s: seq<byte>): PResult<Value> {
    match BencInt(b, s)
    case Ok(n, rem) => Ok(Int(n), rem)
    case Fail(rem, e) => Fail(rem, e)
    case Panic => Panic
  }

  function AStr(b: Build, s: seq<byte>): PResult<Value> {
    match BencStr(b, s)
    case Ok(t, rem) => Ok(Str(t), rem)
    case Fail(rem, e) => Fail(rem, e)
    case Panic => Panic
  }

  lemma StrObeys(s: seq<byte>)
    ensures Obeys(BencStr(AsCommented, s), s)
    ensures BencStr(AsCommented, s).Ok? ==> |BencStr(AsCommented, s).rem| < |s|
  {
    NumberObeys(AsCommented, s);
    match Numbering(AsCommented, s) {
      case Fail(_, _) =>
      case Panic =>
      case Ok(num, rem) =>
        OneByteParsers(COLON, rem);
        if Tag(COLON, rem).Ok? {
          var rem' := Tag(COLON, rem).rem;
          SuffixTrans(rem', rem, s);
          PrefixedObeys(num, s, rem');
        }
    }
  }

  lemma PrefixedObeys(num: Wrappers.Option<int>, s: seq<byte>, rem: seq<byte>)
    requires IsSuffix(rem, s) && num.Some?
    ensures Obeys(Prefixed(num, s, rem), s)
    ensures Prefixed(num, s, rem).Ok? ==> |Prefixed(num, s, rem).rem| <= |rem|
  {
    if num.value != 0 && TakingN(num.value, rem).Ok? {
      AfterDigits(rem, s, num.value);
    }
  }

  lemma IntObeys(s: seq<byte>)
    ensures Obeys(BencInt(AsCommented, s), s)
    ensures BencInt(AsCommented, s).Ok? ==> |BencInt(AsCommented, s).rem| < |s|
  {
    GuardedWhileObeys(AsCommented, CHAR_I, CHAR_E, IsDigit, s);
    if BencInt(AsCommented, s).Ok? {
      GuardedWhileIsGuarded(AsCommented, CHAR_I, CHAR_E, IsDigit, s);
    }
  }

  // ---------- lists and dictionaries ----------

  function IntParser(): Parser<Value> {
    t => AnInt(AsCommented, t)
  }

  function StrParser(): Parser<Value> {
    t => AStr(AsCommented, t)
  }

  /** What ThenDiscard makes of r, the result on s, with the end marker behind it. */
  function Ended(r: PResult<seq<Value>>, s: seq<byte>): PResult<seq<Value>> {
    ThenDiscard(AsCommented, t => r, t => Tag(CHAR_E, t), s)
  }

  /** The first that succeeds, or else the last. */
  function Alternative<R>(a: PResult<R>, b: PResult<R>, c: PResult<R>, d: PResult<R>): PResult<R> {
    if a.Ok? then a else if b.Ok? then b else if c.Ok? then c else d
  }

  /** A list of integers, of strings, of dictionaries or of lists. */
  function BencList(s: seq<byte>): (r: PResult<Value>)
    ensures r.Ok? ==> |r.rem| < |s|
    decreases |s|, 0
  {
    match Tag(CHAR_L, s)
    case Panic => Panic
    case Fail(_, e) => Fail(s, e)
    case Ok(_, rem) =>
      match ListBody(rem)
      case Ok(vs, rem') => Ok(List(vs), rem')
      case Fail(_, e) => Fail(s, e)
      case Panic => Panic
  }

  function ListBody(s: seq<byte>): (r: PResult<seq<Value>>)
    ensures r.Ok? ==> |r.rem| <= |s|
    decreases |s|, 2
  {
    ManyShrink(s);
    EndedShrinks(ManyDicts(s), s);
    Alternative(Ended(Many0(IntParser(), s), s), Ended(Many0(StrParser(), s), s), Ended(ManyDicts(s), s),
        ManyLists(s, []))
  }

  function ManyDicts(s: seq<byte>): (r: PResult<seq<Value>>)
    ensures r.Ok? && |r.rem| <= |s|
    decreases |s|, 1
  {
    if s == [] then Ok([], s)
    else match BenDict(s)
      case Ok(v, rem) => Ok([v] + ManyDicts(rem).value, ManyDicts(rem).rem)
      case _ => Ok([], s)
  }

  /** The loop over the lists in a list, of which there has to be one. */
  function ManyLists(s: seq<byte>, vs: seq<Value>): (r: PResult<seq<Value>>)
    ensures r.Ok? ==> |r.rem| <= |s|
    decreases |s|, 1
  {
    match BencList(s)
    case Panic => Panic
    case Fail(_, e) => Fail(s, e)
    case Ok(v, rem) =>
      match Tag(CHAR_E, rem)
      case Panic => Panic
      case Ok(_, rem') => Ok(vs + [v], rem')
      case Fail(_, Unmatched) => FailAt(s, ManyLists(rem, vs + [v]))
      case Fail(_, e) => Fail(s, e)
  }

  /** A failure further on counts as one here. */
  function FailAt<R>(s: seq<byte>, r: PResult<R>): PResult<R> {
    match r
    case Fail(_, e) => Fail(s, e)
    case r => r
  }

  function BenDict(s: seq<byte>): (r: PResult<Value>)
    ensures r.Ok? ==> |r.rem| < |s|
    decreases |s|, 0
  {
    match Tag(CHAR_D, s)
    case Panic => Panic
    case Fail(_, e) => Fail(s, e)
    case Ok(_, rem) =>
      match Entries(rem, [])
      case Ok(es, rem') => Ok(Dict(es), rem')
      case Fail(_, e) => Fail(s, e)
      case Panic => Panic
  }

  /** The loop over the entries of a dictionary. */
  function Entries(s: seq<byte>, es: seq<Entry>): (r: PResult<seq<Entry>>)
    ensures r.Ok? ==> |r.rem| <= |s|
    decreases |s|, 3
  {
    StrObeys(s);
    AfterKey(BencStr(AsCommented, s), s, es)
  }

  /** One turn of the loop, after the parser for the key. Where there is no key the dictionary has to end. */
  function AfterKey(key: PResult<seq<byte>>, s: seq<byte>, es: seq<Entry>): (r: PResult<seq<Entry>>)
    requires key.Ok? ==> |key.rem| < |s|
    ensures r.Ok? ==> |r.rem| <= |s|
    decreases |s|, 2
  {
    match key
    case Panic => Panic
    case Fail(_, _) =>
      (match Tag(CHAR_E, s)
       case Panic => Panic
       case Fail(_, e) => Fail(s, e)
       case Ok(_, rem) => Ok(es, rem))
    case Ok(k, rem) =>
      match DictValue(rem)
      case Panic => Panic
      case Fail(_, e) => Fail(s, e)
      case Ok(v, rem') =>
        match Tag(CHAR_E, rem')
        case Panic => Panic
        case Ok(_, rem'') => Ok(Put(es, k, v), rem'')
        case Fail(_, Unmatched) => FailAt(s, Entries(rem', Put(es, k, v)))
        case Fail(_, e) => Fail(s, e)
  }

  /** The value of an entry: an integer, a string, a list, or else a dictionary. */
  function DictValue(s: seq<byte>): (r: PResult<Value>)
    ensures r.Ok? ==> |r.rem| < |s|
    decreases |s|, 1
  {
    IntObeys(s);
    StrObeys(s);
    if s == [] then Fail(s, Incomplete)
    else Alternative(AnInt(AsCommented, s), AStr(AsCommented, s), BencList(s), BenDict(s))
  }

  /** Assignment to a map, whose entries keep their places. */
  function Put(es: seq<Entry>, k: seq<byte>, v: Value): seq<Entry> {
    if es == [] then [Entry(k, v)]
    else if es[0].key == k then [Entry(k, v)] + es[1..]
    else [es[0]] + Put(es[1..], k, v)
  }

  lemma ManyObey(s: seq<byte>)
    ensures Obeys(Many0(IntParser(), s), s) && Obeys(Many0(StrParser(), s), s)
  {
    forall t: seq<byte> ensures Obeys(IntParser()(t), t) && (IntParser()(t).Ok? ==> |IntParser()(t).rem| < |t|) {
      IntObeys(t);
    }
    forall t: seq<byte> ensures Obeys(StrParser()(t), t) && (StrParser()(t).Ok? ==> |StrParser()(t).rem| < |t|) {
      StrObeys(t);
    }
    Many0Greedy(IntParser(), s);
    Many0Greedy(StrParser(), s);
  }

  lemma EndedShrinks(r: PResult<seq<Value>>, s: seq<byte>)
    requires r.Ok? ==> |r.rem| <= |s|
    ensures Ended(r, s).Ok? ==> |Ended(r, s).rem| <= |s|
  {
  }

  lemma ManyShrink(s: seq<byte>)
    ensures Ended(Many0(IntParser(), s), s).Ok? ==> |Ended(Many0(IntParser(), s), s).rem| <= |s|
    ensures Ended(Many0(StrParser(), s), s).Ok? ==> |Ended(Many0(StrParser(), s), s).rem| <= |s|
  {
    ManyObey(s);
    EndedShrinks(Many0(IntParser(), s), s);
    EndedShrinks(Many0(StrParser(), s), s);
  }

  // ---------- the law ----------

  /** Success leaves a suffix and failure leaves the input, for lists and dictionaries nested to any depth. */
  lemma {:induction false} ListObeys(s: seq<byte>)
    ensures Obeys(BencList(s), s)
    decreases |s|, 0
  {
    OneByteParsers(CHAR_L, s);
    if Tag(CHAR_L, s).Ok? {
      var rem := Tag(CHAR_L, s).rem;
      ManyObey(rem);
      ManyDictsObey(rem);
      ManyListsObey(rem, []);
      EndedObeys(Many0(IntParser(), rem), rem);
      EndedObeys(Many0(StrParser(), rem), rem);
      EndedObeys(ManyDicts(rem), rem);
      FurtherOn(ListBody(rem), rem, s);
    }
  }

  lemma EndedObeys(r: PResult<seq<Value>>, s: seq<byte>)
    requires Obeys(r, s)
    ensures Obeys(Ended(r, s), s)
  {
    if r.Ok? {
      OneByteParsers(CHAR_E, r.rem);
      FurtherOn(Tag(CHAR_E, r.rem), r.rem, s);
    }
  }

  /** A result further on in the input. */
  lemma FurtherOn<R>(r: PResult<R>, t: seq<byte>, s: seq<byte>)
    requires Obeys(r, t) && IsSuffix(t, s)
    ensures !r.Panic? && (r.Ok? ==> IsSuffix(r.rem, s)) && Obeys(FailAt(s, r), s)
  {
    if r.Ok? {
      SuffixTrans(r.rem, t, s);
    }
  }

  lemma {:induction false} ManyDictsObey(s: seq<byte>)
    ensures Obeys(ManyDicts(s), s)
    decreases |s|, 1
  {
    if s != [] {
      DictObeys(s);
      if BenDict(s).Ok? {
        ManyDictsObey(BenDict(s).rem);
        FurtherOn(ManyDicts(BenDict(s).rem), BenDict(s).rem, s);
      }
    }
  }

  lemma {:induction false} ManyListsObey(s: seq<byte>, vs: seq<Value>)
    ensures Obeys(ManyLists(s, vs), s)
    decreases |s|, 1
  {
    ListObeys(s);
    if BencList(s).Ok? {
      var v, rem := BencList(s).value, BencList(s).rem;
      OneByteParsers(CHAR_E, rem);
      ManyListsObey(rem, vs + [v]);
      FurtherOn(ManyLists(rem, vs + [v]), rem, s);
      FurtherOn(Tag(CHAR_E, rem), rem, s);
    }
  }

  lemma {:induction false} DictObeys(s: seq<byte>)
    ensures Obeys(BenDict(s), s)
    decreases |s|, 0
  {
    OneByteParsers(CHAR_D, s);
    if Tag(CHAR_D, s).Ok? {
      EntriesObey(Tag(CHAR_D, s).rem, []);
      FurtherOn(Entries(Tag(CHAR_D, s).rem, []), Tag(CHAR_D, s).rem, s);
    }
  }

  lemma {:induction false} EntriesObey(s: seq<byte>, es: seq<Entry>)
    ensures Obeys(Entries(s, es), s)
    decreases |s|, 3
  {
    StrObeys(s);
    AfterKeyObeys(BencStr(AsCommented, s), s, es);
  }

  lemma {:induction false} AfterKeyObeys(key: PResult<seq<byte>>, s: seq<byte>, es: seq<Entry>)
    requires Obeys(key, s) && (key.Ok? ==> |key.rem| < |s|)
    ensures Obeys(AfterKey(key, s, es), s)
    decreases |s|, 2
  {
    OneByteParsers(CHAR_E, s);
    if key.Ok? {
      DictValueObeys(key.rem);
      FurtherOn(DictValue(key.rem), key.rem, s);
      if DictValue(key.rem).Ok? {
        var v, rem := DictValue(key.rem).value, DictValue(key.rem).rem;
        EntriesObey(rem, Put(es, key.value, v));
        NextEntryObeys(s, es, key.value, v, rem);
      }
    }
  }

  lemma NextEntryObeys(s: seq<byte>, es: seq<Entry>, k: seq<byte>, v: Value, rem: seq<byte>)
    requires IsSuffix(rem, s) && Obeys(Entries(rem, Put(es, k, v)), rem)
    ensures Obeys(FailAt(s, Entries(rem, Put(es, k, v))), s)
    ensures Obeys(Tag(CHAR_E, rem), rem) && (Tag(CHAR_E, rem).Ok? ==> IsSuffix(Tag(CHAR_E, rem).rem, s))
  {
    FurtherOn(Entries(rem, Put(es, k, v)), rem, s);
    OneByteParsers(CHAR_E, rem);
    FurtherOn(Tag(CHAR_E, rem), rem, s);
  }

  lemma {:induction false} DictValueObeys(s: seq<byte>)
    ensures Obeys(DictValue(s), s)
    decreases |s|, 1
  {
    IntObeys(s);
    StrObeys(s);
    ListObeys(s);
    DictObeys(s);
  }

  // ---------- printing ----------

  /** The decimal digits of n. */
  function Decimal(n: nat): (ds: seq<byte>)
    ensures ds != [] && IsDigit(ds[0])
  {
    if n < 10 then [ZERO + n] else Decimal(n / 10) + [ZERO + n % 10]
  }

  function PrintInt(n: int): seq<byte> {
    [CHAR_I] + (if n < 0 then [MINUS] + Decimal(-n) else Decimal(n)) + [CHAR_E]
  }

  function PrintStr(s: seq<byte>): (t: seq<byte>)
    ensures t != [] && IsDigit(t[0])
  {
    Decimal(|s|) + [COLON] + s
  }

  /** As written, a list ends with a stray space, and the keys of a dictionary are left out. */
  function Print(b: Build, v: Value): (t: seq<byte>)
    ensures t != [] && KindOf(v) == KindAt(t[0]) && t[0] != CHAR_E && t[0] != MINUS
  {
    match v
    case Int(n) => PrintInt(n)
    case Str(s) => PrintStr(s)
    case List(vs) => [CHAR_L] + PrintAll(b, vs) + [CHAR_E] + if b.AsWritten? then [SPACE] else []
    case Dict(es) => [CHAR_D] + PrintEntries(b, es) + [CHAR_E]
  }

  function PrintAll(b: Build, vs: seq<Value>): seq<byte> {
    if vs == [] then [] else Print(b, vs[0]) + PrintAll(b, vs[1..])
  }

  function PrintEntries(b: Build, es: seq<Entry>): seq<byte> {
    if es == [] then [] else PrintKey(b, es[0].key) + Print(b, es[0].value) + PrintEntries(b, es[1..])
  }

  function PrintKey(b: Build, k: seq<byte>): seq<byte> {
    if b.AsWritten? then [] else PrintStr(k)
  }

  datatype Kind = Ints | Strs | Lists | Dicts

  function KindOf(v: Value): Kind {
    match v
    case Int(_) => Ints
    case Str(_) => Strs
    case List(_) => Lists
    case Dict(_) => Dicts
  }

  /** The first byte of a value says what kind it is. */
  function KindAt(c: byte): Kind {
    if c == CHAR_I then Ints else if c == CHAR_L then Lists else if c == CHAR_D then Dicts else Strs
  }

  /** What can be had as a Go value: integers of 64 bits, lengths of 63 bits, each key once. */
  ghost predicate Representable(v: Value) {
    match v
    case Int(n) => -MAX_INT - 1 <= n <= MAX_INT
    case Str(s) => |s| <= MAX_INT
    case List(vs) => forall i :: 0 <= i < |vs| ==> Representable(vs[i])
    case Dict(es) =>
      && (forall i :: 0 <= i < |es| ==> |es[i].key| <= MAX_INT && Representable(es[i].value))
      && NewKeys([], es)
  }

  /** The keys of es differ from those of got, and from each other. */
  ghost predicate NewKeys(got: seq<Entry>, es: seq<Entry>)
    decreases |es|
  {
    es == [] || ((forall i :: 0 <= i < |got| ==> got[i].key != es[0].key) && NewKeys(got + [es[0]], es[1..]))
  }

  /** What the parsers are documented to read: non-negative integers, strings, lists of values of one kind, and
      dictionaries. */
  ghost predicate Documented(v: Value) {
    match v
    case Int(n) => n >= 0
    case Str(_) => true
    case List(vs) =>
      && (forall i :: 0 <= i < |vs| ==> Documented(vs[i]))
      && forall i, j :: 0 <= i < j < |vs| ==> KindOf(vs[i]) == KindOf(vs[j])
    case Dict(es) => forall i :: 0 <= i < |es| ==> Documented(es[i].value)
  }

  // ---------- round trips of strings and integers ----------

  lemma {:induction false} DecimalValue(n: nat)
    ensures DigitsValue(Decimal(n)) == n && forall i :: 0 <= i < |Decimal(n)| ==> IsDigit(Decimal(n)[i])
  {
    if n < 10 {
      assert Decimal(n)[..0] == [];
    } else {
      DecimalValue(n / 10);
      assert Decimal(n)[..|Decimal(n)| - 1] == Decimal(n / 10);
    }
  }

  /** Decimal digits with something else behind them are read as the number. */
  lemma DecimalSpan(n: nat, rest: seq<byte>)
    requires rest != [] && !IsDigit(rest[0])
    ensures Span(IsDigit, Decimal(n) + rest) == |Decimal(n)|
    ensures (Decimal(n) + rest)[..|Decimal(n)|] == Decimal(n) && (Decimal(n) + rest)[|Decimal(n)|..] == rest
  {
    DecimalValue(n);
    SpanUnique(IsDigit, Decimal(n) + rest, |Decimal(n)|);
  }

  /** An integer is read back exactly if it is not negative. */
  lemma IntRoundTrip(b: Build, n: int, rest: seq<byte>)
    requires -MAX_INT - 1 <= n <= MAX_INT
    ensures var r := BencInt(b, PrintInt(n) + rest); if n >= 0 then r == Ok(n, rest) else r.Fail?
  {
    if n >= 0 {
      DecimalValue(n);
      GuardedIsFound(b, CHAR_I, CHAR_E, IsDigit, Decimal(n), rest);
    } else {
      NothingGuarded(b, CHAR_I, CHAR_E, IsDigit, PrintInt(n) + rest);
    }
  }

  /** A string is read back, as written unless it is empty. */
  lemma StrRoundTrip(b: Build, t: seq<byte>, rest: seq<byte>)
    requires |t| <= MAX_INT
    ensures var r := BencStr(b, PrintStr(t) + rest); if b.AsCommented? || t != [] then r == Ok(t, rest) else r.Fail?
  {
    var s, end := PrintStr(t) + rest, [COLON] + (t + rest);
    assert s == Decimal(|t|) + end;
    DecimalSpan(|t|, end);
    DecimalValue(|t|);
    assert Unsigned(s) == s;
    assert end[1..] == t + rest && (t + rest)[..|t|] == t && (t + rest)[|t|..] == rest;
  }

  // ---------- round trips of trees ----------

  /** The kinds whose parsers are constructed, as written, before the parser for k is. */
  function Needs(k: Kind): set<Kind> {
    match k
    case Ints => {}
    case Strs => {}
    case Lists => {Strs, Ints, Dicts}
    case Dicts => {Strs, Ints, Lists}
  }

  /** The parser for k can be constructed with this many calls inside each other. */
  predicate BuiltWithin(k: Kind, depth: nat)
    decreases depth
  {
    depth > 0 && forall j :: j in Needs(k) ==> BuiltWithin(j, depth - 1)
  }

  /** As written, can the parser for k be constructed at all? */
  ghost predicate Constructible(k: Kind) {
    exists depth :: BuiltWithin(k, depth)
  }

  lemma {:induction false} NeverBuilt(k: Kind, depth: nat)
    requires k.Lists? || k.Dicts?
    ensures !BuiltWithin(k, depth)
    decreases depth
  {
    if depth > 0 {
      var j := if k.Lists? then Dicts else Lists;
      NeverBuilt(j, depth - 1);
      assert j in Needs(k);
    }
  }

  /** Only the parsers of integers and strings can: those of lists and dictionaries construct each other without end. */
  lemma ConstructibleIff(k: Kind)
    ensures Constructible(k) <==> k.Ints? || k.Strs?
  {
    if k.Lists? || k.Dicts? {
      forall depth: nat ensures !BuiltWithin(k, depth) {
        NeverBuilt(k, depth);
      }
    } else {
      assert BuiltWithin(k, 1);
    }
  }

  /** The parser for a kind of value. As written, those that cannot be constructed (ConstructibleIff) exhaust the stack;
      with the repair a parser is constructed when it is needed, which the remaining input bounds. */
  function ReadAs(b: Build, k: Kind, s: seq<byte>): PResult<Value> {
    match k
    case Ints => AnInt(b, s)
    case Strs => AStr(b, s)
    case Lists => if b.AsWritten? then Panic else BencList(s)
    case Dicts => if b.AsWritten? then Panic else BenDict(s)
  }

  /** Whatever begins like another kind of value is refused. */
  lemma OtherKind(k: Kind, s: seq<byte>)
    requires s != [] && s[0] != MINUS && (KindAt(s[0]) != k || s[0] == CHAR_E)
    ensures ReadAs(AsCommented, k, s).Fail?
  {
    if k.Ints? {
      NothingGuarded(AsCommented, CHAR_I, CHAR_E, IsDigit, s);
    } else if k.Strs? {
      assert Span(IsDigit, s) == 0;
    }
  }

  /** The printed elements of a list, its end, and what follows. */
  function Body(vs: seq<Value>, rest: seq<byte>): seq<byte> {
    PrintAll(AsCommented, vs) + [CHAR_E] + rest
  }

  lemma BodyStep(vs: seq<Value>, rest: seq<byte>)
    ensures vs != [] ==> Body(vs, rest) == Print(AsCommented, vs[0]) + Body(vs[1..], rest)
    ensures Tag(CHAR_E, Body(vs, rest)) == if vs == [] then Ok(CHAR_E, rest) else Fail(Body(vs, rest), Unmatched)
  {
    if vs == [] {
      assert Body(vs, rest) == [CHAR_E] + rest;
    } else {
      assert Body(vs, rest)[0] == Print(AsCommented, vs[0])[0];
    }
  }

  /** How many elements at the beginning of vs are documented values of kind k. */
  ghost function Leading(k: Kind, vs: seq<Value>): (n: nat)
    ensures n <= |vs|
  {
    if vs == [] || KindOf(vs[0]) != k || !Documented(vs[0]) then 0 else 1 + Leading(k, vs[1..])
  }

  lemma {:induction false} AllLeading(k: Kind, vs: seq<Value>)
    ensures Leading(k, vs) == |vs| <==> forall i :: 0 <= i < |vs| ==> KindOf(vs[i]) == k && Documented(vs[i])
  {
    if vs != [] {
      AllLeading(k, vs[1..]);
      assert vs == [vs[0]] + vs[1..];
    }
  }

  /** The round trip: the parser for kind k reads a printed tree back, and leaves exactly what follows it, if and only
      if the tree is a documented value of that kind; otherwise it fails. */
  lemma {:induction false} RoundTrip(v: Value, k: Kind, rest: seq<byte>)
    requires Representable(v)
    ensures var r := ReadAs(AsCommented, k, Print(AsCommented, v) + rest);
            if KindOf(v) == k && Documented(v) then r == Ok(v, rest) else r.Fail?
    decreases v, 0
  {
    if KindOf(v) != k {
      OtherKind(k, Print(AsCommented, v) + rest);
    } else {
      match v
      case Int(n) => IntRoundTrip(AsCommented, n, rest);
      case Str(t) => StrRoundTrip(AsCommented, t, rest);
      case List(vs) =>
        ListShape(vs, rest);
        ListReads(vs, rest);
      case Dict(es) =>
        DictShape(es, rest);
        DictReads(es, rest);
    }
  }

  lemma ListShape(vs: seq<Value>, rest: seq<byte>)
    ensures Print(AsCommented, List(vs)) + rest == [CHAR_L] + Body(vs, rest)
  {
    var body := PrintAll(AsCommented, vs);
    assert [CHAR_L] + body + [CHAR_E] + [] + rest == [CHAR_L] + (body + [CHAR_E] + rest);
  }

  lemma DictShape(es: seq<Entry>, rest: seq<byte>)
    ensures Print(AsCommented, Dict(es)) + rest == [CHAR_D] + EntryBody(es, rest)
  {
    var body := PrintEntries(AsCommented, es);
    assert [CHAR_D] + body + [CHAR_E] + rest == [CHAR_D] + (body + [CHAR_E] + rest);
  }

  lemma {:induction false} ListReads(vs: seq<Value>, rest: seq<byte>)
    requires forall i :: 0 <= i < |vs| ==> Representable(vs[i])
    ensures var r := BencList([CHAR_L] + Body(vs, rest));
            if Documented(List(vs)) then r == Ok(List(vs), rest) else r.Fail?
    decreases vs, 3
  {
    ListStep(Body(vs, rest));
    ListBodyReads(vs, rest);
  }

  lemma {:induction false} DictReads(es: seq<Entry>, rest: seq<byte>)
    requires forall i :: 0 <= i < |es| ==> |es[i].key| <= MAX_INT && Representable(es[i].value)
    requires NewKeys([], es)
    ensures var r := BenDict([CHAR_D] + EntryBody(es, rest));
            if forall i :: 0 <= i < |es| ==> Documented(es[i].value) then r == Ok(Dict(es), rest) else r.Fail?
    decreases es, 2
  {
    DictStep(EntryBody(es, rest));
    EntriesRead(es, [], rest);
    DictOfEntries(es, rest, Entries(EntryBody(es, rest), []), BenDict([CHAR_D] + EntryBody(es, rest)));
  }

  lemma DictOfEntries(es: seq<Entry>, rest: seq<byte>, r: PResult<seq<Entry>>, d: PResult<Value>)
    requires ReadsEntries(es, [], rest, r) && if r.Ok? then d == Ok(Dict(r.value), r.rem) else d.Fail?
    ensures if forall i :: 0 <= i < |es| ==> Documented(es[i].value) then d == Ok(Dict(es), rest) else d.Fail?
  {
    assert [] + es == es;
  }

  lemma DictStep(s: seq<byte>)
    ensures Entries(s, []).Fail? ==> BenDict([CHAR_D] + s).Fail?
    ensures Entries(s, []).Panic? ==> BenDict([CHAR_D] + s).Panic?
    ensures Entries(s, []).Ok? ==> BenDict([CHAR_D] + s) == Ok(Dict(Entries(s, []).value), Entries(s, []).rem)
  {
    assert ([CHAR_D] + s)[1..] == s;
  }

  lemma ListStep(s: seq<byte>)
    ensures ListBody(s).Panic? ==> BencList([CHAR_L] + s).Panic?
    ensures ListBody(s).Fail? ==> BencList([CHAR_L] + s).Fail?
    ensures ListBody(s).Ok? ==> BencList([CHAR_L] + s) == Ok(List(ListBody(s).value), ListBody(s).rem)
  {
    assert ([CHAR_L] + s)[1..] == s;
  }

  lemma {:induction false} ListBodyReads(vs: seq<Value>, rest: seq<byte>)
    requires forall i :: 0 <= i < |vs| ==> Representable(vs[i])
    ensures var r := ListBody(Body(vs, rest)); if Documented(List(vs)) then r == Ok(vs, rest) else r.Fail?
    decreases vs, 2
  {
    EndedReads(Ints, vs, rest);
    EndedReads(Strs, vs, rest);
    EndedReads(Dicts, vs, rest);
    if vs != [] {
      ListsRead(vs, [], rest);
    }
    var s := Body(vs, rest);
    ListBodyIsAlternative(s);
    assert [] + vs == vs;
    DocumentedLists(vs);
  }

  /** A list of values of one kind, but not of lists. */
  function ListOf(k: Kind, s: seq<byte>): PResult<seq<Value>> {
    Ended(Many0(Reader(k), s), s)
  }

  lemma ListBodyIsAlternative(s: seq<byte>)
    ensures ListBody(s) == Alternative(ListOf(Ints, s), ListOf(Strs, s), ListOf(Dicts, s), ManyLists(s, []))
  {
    ManyDictsIsMany0(s);
  }

  ghost predicate ReadsIfAll(k: Kind, vs: seq<Value>, rest: seq<byte>, r: PResult<seq<Value>>) {
    if Leading(k, vs) == |vs| then r == Ok(vs, rest) else r.Fail?
  }

  lemma DocumentedLists(vs: seq<Value>)
    ensures Documented(List(vs)) <==>
              Leading(Ints, vs) == |vs| || Leading(Strs, vs) == |vs| || Leading(Dicts, vs) == |vs| ||
                  Leading(Lists, vs) == |vs|
  {
    if vs != [] {
      OfFirstKind(vs, Ints);
      OfFirstKind(vs, Strs);
      OfFirstKind(vs, Dicts);
      OfFirstKind(vs, Lists);
    }
  }

  lemma OfFirstKind(vs: seq<Value>, k: Kind)
    requires vs != []
    ensures Leading(k, vs) == |vs| <==> KindOf(vs[0]) == k && Documented(List(vs))
  {
    AllLeading(k, vs);
    if KindOf(vs[0]) == k && Documented(List(vs)) {
      forall i | 0 <= i < |vs| ensures KindOf(vs[i]) == k && Documented(vs[i]) {
        assert i > 0 ==> KindOf(vs[0]) == KindOf(vs[i]);
      }
    }
  }

  lemma {:induction false} EndedReads(k: Kind, vs: seq<Value>, rest: seq<byte>)
    requires !k.Lists? && forall i :: 0 <= i < |vs| ==> Representable(vs[i])
    ensures ReadsIfAll(k, vs, rest, ListOf(k, Body(vs, rest)))
    decreases vs, 1
  {
    ManyReads(k, vs, rest);
    var m := Leading(k, vs);
    BodyStep(vs[m..], rest);
    assert vs[..|vs|] == vs;
  }

  /** Many0 reads as many elements as there are of the right kind. */
  lemma {:induction false} ManyReads(k: Kind, vs: seq<Value>, rest: seq<byte>)
    requires !k.Lists? && forall i :: 0 <= i < |vs| ==> Representable(vs[i])
    ensures ReadsLeading(k, vs, rest, Many0(Reader(k), Body(vs, rest)))
    decreases vs, 0
  {
    BodyStep(vs, rest);
    if vs == [] {
      OtherKind(k, Body(vs, rest));
    } else {
      RoundTrip(vs[0], k, Body(vs[1..], rest));
      ManyReads(k, vs[1..], rest);
      ManyReadsStep(Reader(k), k, vs, rest);
    }
  }

  function Reader(k: Kind): Parser<Value> {
    match k
    case Ints => IntParser()
    case Strs => StrParser()
    case Lists => t => BencList(t)
    case Dicts => t => BenDict(t)
  }

  /** r is what is left of a list when its leading elements of kind k have been read. */
  ghost predicate ReadsLeading(k: Kind, vs: seq<Value>, rest: seq<byte>, r: PResult<seq<Value>>) {
    r == Ok(vs[..Leading(k, vs)], Body(vs[Leading(k, vs)..], rest))
  }

  lemma ManyReadsStep(p: Parser<Value>, k: Kind, vs: seq<Value>, rest: seq<byte>)
    requires vs != []
    requires var r := p(Body(vs, rest));
             if KindOf(vs[0]) == k && Documented(vs[0]) then r == Ok(vs[0], Body(vs[1..], rest)) else r.Fail?
    requires ReadsLeading(k, vs[1..], rest, Many0(p, Body(vs[1..], rest)))
    ensures ReadsLeading(k, vs, rest, Many0(p, Body(vs, rest)))
  {
    BodyStep(vs, rest);
    var m := Leading(k, vs[1..]);
    assert vs[1..][m..] == vs[m + 1..] && [vs[0]] + vs[1..][..m] == vs[..m + 1];
  }

  /** The loop over the lists in a list reads them all if all are documented lists, and fails otherwise. */
  lemma {:induction false} ListsRead(vs: seq<Value>, got: seq<Value>, rest: seq<byte>)
    requires vs != [] && forall i :: 0 <= i < |vs| ==> Representable(vs[i])
    ensures ReadsLists(vs, got, rest, ManyLists(Body(vs, rest), got))
    decreases vs, 0
  {
    var s, later := Body(vs, rest), Body(vs[1..], rest);
    BodyStep(vs, rest);
    BodyStep(vs[1..], rest);
    RoundTrip(vs[0], Lists, later);
    ManyListsStep(s, got);
    if vs[1..] != [] {
      ListsRead(vs[1..], got + [vs[0]], rest);
    }
    ListsReadStep(vs, got, rest, ManyLists(s, got), ManyLists(later, got + [vs[0]]));
  }

  ghost predicate ReadsLists(vs: seq<Value>, got: seq<Value>, rest: seq<byte>, r: PResult<seq<Value>>) {
    if Leading(Lists, vs) == |vs| then r == Ok(got + vs, rest) else r.Fail?
  }

  lemma ListsReadStep(vs: seq<Value>, got: seq<Value>, rest: seq<byte>, r: PResult<seq<Value>>,
      later: PResult<seq<Value>>)
    requires vs != []
    requires if KindOf(vs[0]) != Lists || !Documented(vs[0]) then r.Fail?
             else if vs[1..] == [] then r == Ok(got + [vs[0]], rest)
             else ReadsLists(vs[1..], got + [vs[0]], rest, later) && if later.Fail? then r.Fail? else r == later
    ensures ReadsLists(vs, got, rest, r)
  {
    assert got + [vs[0]] + vs[1..] == got + vs;
    assert vs == [vs[0]] + vs[1..] && (vs[1..] == [] ==> vs == [vs[0]]);
  }

  lemma ManyListsStep(s: seq<byte>, got: seq<Value>)
    ensures BencList(s).Fail? ==> ManyLists(s, got).Fail?
    ensures BencList(s).Ok? && Tag(CHAR_E, BencList(s).rem).Ok? ==>
              ManyLists(s, got) == Ok(got + [BencList(s).value], Tag(CHAR_E, BencList(s).rem).rem)
    ensures BencList(s).Ok? && Tag(CHAR_E, BencList(s).rem) == Fail(BencList(s).rem, Unmatched) ==>
              var r := ManyLists(BencList(s).rem, got + [BencList(s).value]);
              if r.Fail? then ManyLists(s, got).Fail? else ManyLists(s, got) == r
  {
  }

  /** The loop over dictionaries is Many0 of the parser for one. */
  lemma {:induction false} ManyDictsIsMany0(s: seq<byte>)
    ensures ManyDicts(s) == Many0(Reader(Dicts), s)
    decreases |s|
  {
    var p := Reader(Dicts);
    assert p(s) == BenDict(s);
    DictObeys(s);
    if s != [] && BenDict(s).Ok? {
      var rem := BenDict(s).rem;
      ManyDictsIsMany0(rem);
      assert Many0(p, s) == Onto([BenDict(s).value], Many0(p, rem));
    }
  }

  function EntryBody(es: seq<Entry>, rest: seq<byte>): seq<byte> {
    PrintEntries(AsCommented, es) + [CHAR_E] + rest
  }

  lemma EntryBodyStep(es: seq<Entry>, rest: seq<byte>)
    ensures es != [] ==>
              EntryBody(es, rest) == PrintStr(es[0].key) + (Print(AsCommented, es[0].value) + EntryBody(es[1..], rest))
    ensures Tag(CHAR_E, EntryBody(es, rest)) ==
            if es == [] then Ok(CHAR_E, rest) else Fail(EntryBody(es, rest), Unmatched)
  {
    if es == [] {
      assert EntryBody(es, rest) == [CHAR_E] + rest;
    } else {
      Regroup(PrintStr(es[0].key), Print(AsCommented, es[0].value), PrintEntries(AsCommented, es[1..]), [CHAR_E], rest);
      assert EntryBody(es, rest)[0] == PrintStr(es[0].key)[0];
    }
  }

  lemma Regroup(a: seq<byte>, b: seq<byte>, c: seq<byte>, d: seq<byte>, e: seq<byte>)
    ensures a + b + c + d + e == a + (b + (c + d + e))
  {
  }

  /** The loop over entries reads them all if all values are documented, and fails otherwise. */
  lemma {:induction false} EntriesRead(es: seq<Entry>, got: seq<Entry>, rest: seq<byte>)
    requires forall i :: 0 <= i < |es| ==> |es[i].key| <= MAX_INT && Representable(es[i].value)
    requires NewKeys(got, es)
    ensures ReadsEntries(es, got, rest, Entries(EntryBody(es, rest), got))
    decreases es, 1
  {
    if es == [] {
      EntryBodyStep(es, rest);
      OtherKind(Strs, EntryBody(es, rest));
      EntriesEnd(EntryBody(es, rest), got);
      assert got + es == got;
    } else {
      var e := es[0];
      if es[1..] != [] {
        EntriesRead(es[1..], got + [e], rest);
      }
      DictValueReads(e.value, EntryBody(es[1..], rest));
      FirstEntryRead(es, got, rest);
      EntriesReadStep(es, got, rest, Entries(EntryBody(es, rest), got), Entries(EntryBody(es[1..], rest), got + [e]));
    }
  }

  /** One entry has been read, or its value is not documented. */
  lemma FirstEntryRead(es: seq<Entry>, got: seq<Entry>, rest: seq<byte>)
    requires es != [] && |es[0].key| <= MAX_INT && NewKeys(got, es)
    requires var r := DictValue(Print(AsCommented, es[0].value) + EntryBody(es[1..], rest));
             if Documented(es[0].value) then r == Ok(es[0].value, EntryBody(es[1..], rest)) else r.Fail?
    ensures var r, later := Entries(EntryBody(es, rest), got), Entries(EntryBody(es[1..], rest), got + [es[0]]);
            if !Documented(es[0].value) then r.Fail?
            else if es[1..] == [] then r == Ok(got + [es[0]], rest)
            else if later.Fail? then r.Fail? else r == later
  {
    var e := es[0];
    EntryBodyStep(es, rest);
    EntryBodyStep(es[1..], rest);
    KeyedStep(e.key, Print(AsCommented, e.value) + EntryBody(es[1..], rest), got);
    PutNew(got, e.key, e.value);
  }

  ghost predicate ReadsEntries(es: seq<Entry>, got: seq<Entry>, rest: seq<byte>, r: PResult<seq<Entry>>) {
    if forall i :: 0 <= i < |es| ==> Documented(es[i].value) then r == Ok(got + es, rest) else r.Fail?
  }

  lemma EntriesReadStep(es: seq<Entry>, got: seq<Entry>, rest: seq<byte>, r: PResult<seq<Entry>>,
      later: PResult<seq<Entry>>)
    requires es != []
    requires if !Documented(es[0].value) then r.Fail?
             else if es[1..] == [] then r == Ok(got + [es[0]], rest)
             else ReadsEntries(es[1..], got + [es[0]], rest, later) && if later.Fail? then r.Fail? else r == later
    ensures ReadsEntries(es, got, rest, r)
  {
    assert got + [es[0]] + es[1..] == got + es;
    assert es == [es[0]] + es[1..] && (es[1..] == [] ==> es == [es[0]]);
  }

  lemma EntriesEnd(s: seq<byte>, es: seq<Entry>)
    requires BencStr(AsCommented, s).Fail? && Tag(CHAR_E, s).Ok?
    ensures Entries(s, es) == Ok(es, Tag(CHAR_E, s).rem)
  {
  }

  /** One turn of the loop: behind a printed key, everything depends on what DictValue makes of the rest. */
  lemma KeyedStep(k: seq<byte>, rem: seq<byte>, es: seq<Entry>)
    requires |k| <= MAX_INT
    ensures DictValue(rem).Fail? ==> Entries(PrintStr(k) + rem, es).Fail?
    ensures DictValue(rem).Ok? && Tag(CHAR_E, DictValue(rem).rem).Ok? ==>
              Entries(PrintStr(k) + rem, es) ==
                  Ok(Put(es, k, DictValue(rem).value), Tag(CHAR_E, DictValue(rem).rem).rem)
    ensures DictValue(rem).Ok? && Tag(CHAR_E, DictValue(rem).rem) == Fail(DictValue(rem).rem, Unmatched) ==>
              var later := Entries(DictValue(rem).rem, Put(es, k, DictValue(rem).value));
              if later.Fail? then Entries(PrintStr(k) + rem, es).Fail? else Entries(PrintStr(k) + rem, es) == later
  {
    StrRoundTrip(AsCommented, k, rem);
    AfterKeyStep(k, rem, PrintStr(k) + rem, es);
  }

  lemma AfterKeyStep(k: seq<byte>, rem: seq<byte>, s: seq<byte>, es: seq<Entry>)
    requires |rem| < |s|
    ensures DictValue(rem).Fail? ==> AfterKey(Ok(k, rem), s, es).Fail?
    ensures DictValue(rem).Ok? && Tag(CHAR_E, DictValue(rem).rem).Ok? ==>
              AfterKey(Ok(k, rem), s, es) == Ok(Put(es, k, DictValue(rem).value), Tag(CHAR_E, DictValue(rem).rem).rem)
    ensures DictValue(rem).Ok? && Tag(CHAR_E, DictValue(rem).rem) == Fail(DictValue(rem).rem, Unmatched) ==>
              AfterKey(Ok(k, rem), s, es) == FailAt(s, Entries(DictValue(rem).rem, Put(es, k, DictValue(rem).value)))
  {
  }

  lemma DictValueReads(v: Value, rest: seq<byte>)
    requires Representable(v)
    ensures var r := DictValue(Print(AsCommented, v) + rest); if Documented(v) then r == Ok(v, rest) else r.Fail?
    decreases v, 1
  {
    var s := Print(AsCommented, v) + rest;
    RoundTrip(v, Ints, rest);
    RoundTrip(v, Strs, rest);
    RoundTrip(v, Lists, rest);
    RoundTrip(v, Dicts, rest);
    OneOfFour(v, rest, AnInt(AsCommented, s), AStr(AsCommented, s), BencList(s), BenDict(s));
  }

  lemma OneOfFour(v: Value, rest: seq<byte>, a: PResult<Value>, b: PResult<Value>, c: PResult<Value>, d: PResult<Value>)
    requires if KindOf(v) == Ints && Documented(v) then a == Ok(v, rest) else a.Fail?
    requires if KindOf(v) == Strs && Documented(v) then b == Ok(v, rest) else b.Fail?
    requires if KindOf(v) == Lists && Documented(v) then c == Ok(v, rest) else c.Fail?
    requires if KindOf(v) == Dicts && Documented(v) then d == Ok(v, rest) else d.Fail?
    ensures if Documented(v) then Alternative(a, b, c, d) == Ok(v, rest) else Alternative(a, b, c, d).Fail?
  {
  }

  lemma {:induction false} PutNew(es: seq<Entry>, k: seq<byte>, v: Value)
    requires forall i :: 0 <= i < |es| ==> es[i].key != k
    ensures Put(es, k, v) == es + [Entry(k, v)]
  {
    if es != [] {
      PutNew(es[1..], k, v);
      assert es == [es[0]] + es[1..];
    }
  }

  /** As written, exactly the non-negative integers and the strings that are not empty survive; for everything else but
      negative integers and the empty string there is no parser. */
  lemma WrittenRoundTrip(v: Value, rest: seq<byte>)
    requires Representable(v)
    ensures ReadAs(AsWritten, KindOf(v), Print(AsWritten, v) + rest) == Ok(v, rest) <==>
              (v.Int? && v.n >= 0) || (v.Str? && v.s != [])
    ensures Constructible(KindOf(v)) <==> v.Int? || v.Str?
  {
    ConstructibleIff(KindOf(v));
    match v
    case Int(n) => IntRoundTrip(AsWritten, n, rest);
    case Str(t) => StrRoundTrip(AsWritten, t, rest);
    case List(_) =>
    case Dict(_) =>
  }

  // ---------- the printer as written, read by the repaired parsers ----------

  /** What stands behind a value that is printed as written. */
  function Stray(v: Value): seq<byte> {
    if v.List? then [SPACE] else []
  }

  /** What the code as written prints is read, if at all, up to the stray space; and a dictionary loses entries, since
      one value is taken for the key of the next. */
  ghost predicate ReadsStray(v: Value, rest: seq<byte>, r: PResult<Value>) {
    !r.Panic? &&
    (r.Ok? ==> r.rem == Stray(v) + rest && (v.Dict? && v.es != [] ==> r.value.Dict? && |r.value.es| < |v.es|))
  }

  lemma {:induction false} WrittenReads(v: Value, rest: seq<byte>)
    requires Representable(v)
    ensures ReadsStray(v, rest, ReadAs(AsCommented, KindOf(v), Print(AsWritten, v) + rest))
    decreases v, 0
  {
    match v
    case List(vs) => StrayListReads(vs, rest);
    case Dict(es) => StrayDictReads(es, rest);
    case _ => LeafReads(v, rest);
  }

  lemma LeafReads(v: Value, rest: seq<byte>)
    requires Representable(v) && (v.Int? || v.Str?)
    ensures ReadsStray(v, rest, ReadAs(AsCommented, KindOf(v), Print(AsWritten, v) + rest))
  {
    assert [] + rest == rest;
    match v
    case Int(n) => IntRoundTrip(AsCommented, n, rest);
    case Str(t) => StrRoundTrip(AsCommented, t, rest);
  }

  lemma {:induction false} StrayListReads(vs: seq<Value>, rest: seq<byte>)
    requires forall i :: 0 <= i < |vs| ==> Representable(vs[i])
    ensures ReadsStray(List(vs), rest, BencList(Print(AsWritten, List(vs)) + rest))
    decreases vs, 3
  {
    var body := StrayBody(vs, [SPACE] + rest);
    StrayListBody(vs, [SPACE] + rest);
    ListStep(body);
    StrayListShape(vs, rest);
  }

  lemma {:induction false} StrayDictReads(es: seq<Entry>, rest: seq<byte>)
    requires forall i :: 0 <= i < |es| ==> Representable(es[i].value)
    ensures ReadsStray(Dict(es), rest, BenDict(Print(AsWritten, Dict(es)) + rest))
    decreases es, 2
  {
    var body := StrayEntries(es, rest);
    StrayEntriesRead(es, [], rest);
    DictStep(body);
    StrayDictShape(es, rest);
  }

  lemma StrayListShape(vs: seq<Value>, rest: seq<byte>)
    ensures Print(AsWritten, List(vs)) + rest == [CHAR_L] + StrayBody(vs, [SPACE] + rest)
  {
    Regroup([CHAR_L], PrintAll(AsWritten, vs), [CHAR_E], [SPACE], rest);
    var body := PrintAll(AsWritten, vs);
    assert body + ([CHAR_E] + [SPACE] + rest) == body + [CHAR_E] + ([SPACE] + rest);
  }

  lemma StrayDictShape(es: seq<Entry>, rest: seq<byte>)
    ensures Print(AsWritten, Dict(es)) + rest == [CHAR_D] + StrayEntries(es, rest) && [] + rest == rest
  {
    var body := PrintEntries(AsWritten, es);
    assert [CHAR_D] + body + [CHAR_E] + rest == [CHAR_D] + (body + [CHAR_E] + rest);
  }

  /** The elements of a list, its end, and what follows. */
  function StrayBody(vs: seq<Value>, rest: seq<byte>): seq<byte> {
    PrintAll(AsWritten, vs) + [CHAR_E] + rest
  }

  lemma StrayBodyStep(vs: seq<Value>, rest: seq<byte>)
    ensures vs != [] ==> StrayBody(vs, rest) == Print(AsWritten, vs[0]) + StrayBody(vs[1..], rest)
    ensures Tag(CHAR_E, StrayBody(vs, rest)) ==
            if vs == [] then Ok(CHAR_E, rest) else Fail(StrayBody(vs, rest), Unmatched)
  {
    if vs == [] {
      assert StrayBody(vs, rest) == [CHAR_E] + rest;
    } else {
      assert StrayBody(vs, rest)[0] == Print(AsWritten, vs[0])[0];
    }
  }

  lemma {:induction false} StrayListBody(vs: seq<Value>, rest: seq<byte>)
    requires forall i :: 0 <= i < |vs| ==> Representable(vs[i])
    ensures var r := ListBody(StrayBody(vs, rest)); !r.Panic? && (r.Ok? ==> r.rem == rest)
    decreases vs, 2
  {
    StrayEnded(Ints, vs, rest);
    StrayEnded(Strs, vs, rest);
    StrayEnded(Dicts, vs, rest);
    StrayLists(vs, rest);
    ListBodyIsAlternative(StrayBody(vs, rest));
  }

  lemma {:induction false} StrayEnded(k: Kind, vs: seq<Value>, rest: seq<byte>)
    requires !k.Lists? && forall i :: 0 <= i < |vs| ==> Representable(vs[i])
    ensures var r := ListOf(k, StrayBody(vs, rest)); !r.Panic? && (r.Ok? ==> r.rem == rest)
    decreases vs, 1
  {
    var m := StrayMany(k, vs, rest);
    StrayBodyStep(vs[m..], rest);
  }

  /** Many0 stops between two elements. */
  lemma {:induction false} StrayMany(k: Kind, vs: seq<Value>, rest: seq<byte>) returns (m: nat)
    requires !k.Lists? && forall i :: 0 <= i < |vs| ==> Representable(vs[i])
    ensures m <= |vs| && StopsAt(Many0(Reader(k), StrayBody(vs, rest)), StrayBody(vs[m..], rest))
    decreases vs, 0
  {
    var s, later := StrayBody(vs, rest), StrayBody(vs[1 - (if vs == [] then 1 else 0)..], rest);
    StrayBodyStep(vs, rest);
    if vs == [] || KindOf(vs[0]) != k {
      m := 0;
      assert vs[0..] == vs;
      OtherKind(k, s);
      ManyStops(Reader(k), s, s);
    } else {
      m := StrayMany(k, vs[1..], rest);
      WrittenReads(vs[0], later);
      assert [] + later == later;
      ManyStops(Reader(k), s, later);
      if Reader(k)(s).Ok? {
        assert vs[1..][m..] == vs[m + 1..];
        m := m + 1;
      } else {
        m := 0;
        assert vs[0..] == vs;
      }
    }
  }

  ghost predicate StopsAt<R>(r: PResult<R>, s: seq<byte>) {
    r.Ok? && r.rem == s
  }

  lemma ManyStops(p: Parser<Value>, s: seq<byte>, later: seq<byte>)
    requires !p(s).Panic? && (p(s).Ok? ==> p(s).rem == later && |later| < |s|)
    ensures p(s).Fail? ==> StopsAt(Many0(p, s), s)
    ensures p(s).Ok? && Many0(p, later).Ok? ==> StopsAt(Many0(p, s), Many0(p, later).rem)
  {
  }

  /** A list in a list is never read: the space behind it is neither another list nor the end. */
  lemma {:induction false} StrayLists(vs: seq<Value>, rest: seq<byte>)
    requires forall i :: 0 <= i < |vs| ==> Representable(vs[i])
    ensures ManyLists(StrayBody(vs, rest), []).Fail?
    decreases vs, 0
  {
    var s := StrayBody(vs, rest);
    StrayBodyStep(vs, rest);
    if vs == [] || !vs[0].List? {
      OtherKind(Lists, s);
    } else {
      var later := [SPACE] + StrayBody(vs[1..], rest);
      WrittenReads(vs[0], StrayBody(vs[1..], rest));
      if BencList(s).Ok? {
        ManyListsStep(s, []);
        OtherKind(Lists, later);
        assert ManyLists(later, [] + [BencList(s).value]).Fail?;
      }
    }
  }

  /** The entries of a dictionary, its end, and what follows. */
  function StrayEntries(es: seq<Entry>, rest: seq<byte>): seq<byte> {
    PrintEntries(AsWritten, es) + [CHAR_E] + rest
  }

  lemma StrayEntriesStep(es: seq<Entry>, rest: seq<byte>)
    ensures es != [] ==> StrayEntries(es, rest) == Print(AsWritten, es[0].value) + StrayEntries(es[1..], rest)
    ensures Tag(CHAR_E, StrayEntries(es, rest)) ==
            if es == [] then Ok(CHAR_E, rest) else Fail(StrayEntries(es, rest), Unmatched)
  {
    if es == [] {
      assert StrayEntries(es, rest) == [CHAR_E] + rest;
    } else {
      assert [] + Print(AsWritten, es[0].value) == Print(AsWritten, es[0].value);
      assert StrayEntries(es, rest)[0] == Print(AsWritten, es[0].value)[0];
    }
  }

  /** Each two values are taken for one entry. */
  lemma {:induction false} StrayEntriesRead(es: seq<Entry>, got: seq<Entry>, rest: seq<byte>)
    requires forall i :: 0 <= i < |es| ==> Representable(es[i].value)
    ensures FewerEntries(es, got, rest, Entries(StrayEntries(es, rest), got))
    decreases es, 1
  {
    var s := StrayEntries(es, rest);
    StrayEntriesStep(es, rest);
    if es == [] {
      OtherKind(Strs, s);
      EntriesEnd(s, got);
    } else if !es[0].value.Str? {
      OtherKind(Strs, s);
      NoKeyFails(s, got);
    } else if es[1..] == [] {
      KeyedStep(es[0].value.s, StrayEntries(es[1..], rest), got);
      StrayEntriesStep(es[1..], rest);
      NoValue(StrayEntries(es[1..], rest));
    } else {
      StrayPairRead(es, got, rest);
    }
  }

  lemma {:induction false} StrayPairRead(es: seq<Entry>, got: seq<Entry>, rest: seq<byte>)
    requires |es| >= 2 && es[0].value.Str? && forall i :: 0 <= i < |es| ==> Representable(es[i].value)
    ensures FewerEntries(es, got, rest, Entries(StrayEntries(es, rest), got))
    decreases es, 0
  {
    var k, later := es[0].value.s, StrayEntries(es[1..], rest);
    StrayEntriesStep(es, rest);
    StrayEntryReads(es[1..], rest);
    assert es[1..][1..] == es[2..];
    var d := DictValue(later);
    if d.Ok? {
      PutAtMostOne(got, k, d.value);
      StrayEntriesGoOn(es[1].value, es[2..], Put(got, k, d.value), rest);
      KeyedStep(k, later, got);
    } else {
      KeyedStep(k, later, got);
    }
  }

  ghost predicate FewerEntries(es: seq<Entry>, got: seq<Entry>, rest: seq<byte>, r: PResult<seq<Entry>>) {
    !r.Panic? && (r.Ok? ==> r.rem == rest && (if es == [] then |r.value| <= |got| else |r.value| < |got| + |es|))
  }

  lemma NoKeyFails(s: seq<byte>, es: seq<Entry>)
    requires BencStr(AsCommented, s).Fail? && Tag(CHAR_E, s).Fail?
    ensures Entries(s, es).Fail?
  {
  }

  lemma NoValue(s: seq<byte>)
    requires s != [] && s[0] == CHAR_E
    ensures DictValue(s).Fail?
  {
    OtherKind(Ints, s);
    OtherKind(Strs, s);
    OtherKind(Lists, s);
    OtherKind(Dicts, s);
  }

  /** A value in the place of a value is read up to its stray space. */
  lemma StrayEntryReads(es: seq<Entry>, rest: seq<byte>)
    requires es != [] && Representable(es[0].value)
    ensures var r := DictValue(StrayEntries(es, rest));
            !r.Panic? && (r.Ok? ==> r.rem == Stray(es[0].value) + StrayEntries(es[1..], rest))
    decreases es, 0
  {
    var v, s := es[0].value, StrayEntries(es, rest);
    StrayEntriesStep(es, rest);
    WrittenReads(v, StrayEntries(es[1..], rest));
    assert s[0] == Print(AsWritten, v)[0];
    DictValueObeys(s);
    if !v.Int? { OtherKind(Ints, s); }
    if !v.Str? { OtherKind(Strs, s); }
    if !v.List? { OtherKind(Lists, s); }
    if !v.Dict? { OtherKind(Dicts, s); }
  }

  /** Behind value v there are these entries. */
  lemma {:induction false} StrayEntriesGoOn(v: Value, more: seq<Entry>, got: seq<Entry>, rest: seq<byte>)
    requires forall i :: 0 <= i < |more| ==> Representable(more[i].value)
    ensures var t := Stray(v) + StrayEntries(more, rest);
            if Tag(CHAR_E, t).Ok? then Tag(CHAR_E, t).rem == rest
            else Tag(CHAR_E, t) == Fail(t, Unmatched) && FewerEntries(more, got, rest, Entries(t, got))
    decreases more, 2
  {
    var t := StrayEntries(more, rest);
    if v.List? {
      AfterStraySpace([SPACE] + t, got);
    } else {
      StrayEntriesStep(more, rest);
      assert [] + t == t;
      StrayEntriesRead(more, got, rest);
    }
  }

  /** A space is neither a key nor the end. */
  lemma AfterStraySpace(s: seq<byte>, es: seq<Entry>)
    requires s != [] && s[0] == SPACE
    ensures Entries(s, es).Fail? && Tag(CHAR_E, s) == Fail(s, Unmatched)
  {
    assert Span(IsDigit, s) == 0;
    NoKeyFails(s, es);
  }

  lemma {:induction false} PutAtMostOne(es: seq<Entry>, k: seq<byte>, v: Value)
    ensures |Put(es, k, v)| <= |es| + 1
  {
    if es != [] && es[0].key != k {
      PutAtMostOne(es[1..], k, v);
    }
  }

  /** What the printer as written loses: read by the repaired parsers, exactly the non-negative integers, the strings
      and the empty dictionary come back with what follows them. No list does, and no dictionary with an entry. */
  lemma WrittenPrintIff(v: Value, rest: seq<byte>)
    requires Representable(v)
    ensures ReadAs(AsCommented, KindOf(v), Print(AsWritten, v) + rest) == Ok(v, rest) <==>
              (v.Int? && v.n >= 0) || v.Str? || v == Dict([])
  {
    match v
    case Int(n) => IntRoundTrip(AsCommented, n, rest);
    case Str(t) => StrRoundTrip(AsCommented, t, rest);
    case List(_) =>
      WrittenReads(v, rest);
      assert |[SPACE] + rest| != |rest|;
    case Dict(es) =>
      if es == [] {
        EmptyDictReads(rest);
      } else {
        WrittenReads(v, rest);
      }
  }

  lemma EmptyDictReads(rest: seq<byte>)
    ensures BenDict(Print(AsWritten, Dict([])) + rest) == Ok(Dict([]), rest)
  {
    var s := StrayEntries([], rest);
    StrayEntriesStep([], rest);
    StrayDictShape([], rest);
    OtherKind(Strs, s);
    EntriesEnd(s, []);
    DictStep(s);
  }

  // ---------- the printer and the loops, step by step ----------

  class Writer {
    var out: seq<byte>

    constructor ()
      ensures out == []
    {
      out := [];
    }

    method Write(bytes: seq<byte>)
      modifies this
      ensures out == old(out) + bytes
    {
      out := out + bytes;
    }
  }

  /** marshall: writes the form of a value, piece by piece. */
  method Marshall(b: Build, v: Value, w: Writer)
    modifies w
    ensures w.out == old(w.out) + Print(b, v)
    decreases v, 1
  {
    match v
    case Int(n) =>
      w.Write(PrintInt(n));
    case Str(s) =>
      w.Write(Decimal(|s|));
      w.Write([COLON] + s);
      Assoc(old(w.out), Decimal(|s|), [COLON] + s);
      Assoc(Decimal(|s|), [COLON], s);
    case List(vs) =>
      w.Write([CHAR_L]);
      MarshallAll(b, vs, w);
      w.Write([CHAR_E] + if b.AsWritten? then [SPACE] else []);
      Assoc(old(w.out), [CHAR_L], PrintAll(b, vs));
      Assoc(old(w.out), [CHAR_L] + PrintAll(b, vs), [CHAR_E] + if b.AsWritten? then [SPACE] else []);
      Assoc([CHAR_L] + PrintAll(b, vs), [CHAR_E], if b.AsWritten? then [SPACE] else []);
    case Dict(es) =>
      w.Write([CHAR_D]);
      MarshallEntries(b, es, w);
      w.Write([CHAR_E]);
      Assoc(old(w.out), [CHAR_D], PrintEntries(b, es));
      Assoc(old(w.out), [CHAR_D] + PrintEntries(b, es), [CHAR_E]);
  }

  lemma Assoc(a: seq<byte>, b: seq<byte>, c: seq<byte>)
    ensures a + b + c == a + (b + c)
  {
  }

  method MarshallAll(b: Build, vs: seq<Value>, w: Writer)
    modifies w
    ensures w.out == old(w.out) + PrintAll(b, vs)
    decreases vs, 0
  {
    for i := 0 to |vs|
      invariant w.out + PrintAll(b, vs[i..]) == old(w.out) + PrintAll(b, vs)
    {
      Assoc(w.out, Print(b, vs[i]), PrintAll(b, vs[i..][1..]));
      assert vs[i..][1..] == vs[i + 1..];
      Marshall(b, vs[i], w);
    }
    assert w.out + PrintAll(b, vs[|vs|..]) == w.out;
  }

  method MarshallEntries(b: Build, es: seq<Entry>, w: Writer)
    modifies w
    ensures w.out == old(w.out) + PrintEntries(b, es)
    decreases es, 0
  {
    for i := 0 to |es|
      invariant w.out + PrintEntries(b, es[i..]) == old(w.out) + PrintEntries(b, es)
    {
      Assoc(w.out, PrintKey(b, es[i].key) + Print(b, es[i].value), PrintEntries(b, es[i..][1..]));
      assert es[i..][1..] == es[i + 1..];
      MarshallEntry(b, es[i], w);
    }
    assert w.out + PrintEntries(b, es[|es|..]) == w.out;
  }

  method MarshallEntry(b: Build, e: Entry, w: Writer)
    modifies w
    ensures w.out == old(w.out) + (PrintKey(b, e.key) + Print(b, e.value))
    decreases e, 0
  {
    w.Write(PrintKey(b, e.key)); // nothing, as written
    Marshall(b, e.value, w);
    Assoc(old(w.out), PrintKey(b, e.key), Print(b, e.value));
  }

  /** BenDict, as a loop. */
  method ParseDict(s: seq<byte>) returns (r: PResult<Value>)
    ensures r == BenDict(s)
  {
    var prefix := Tag(CHAR_D, s);
    if !prefix.Ok? {
      return Fail(s, prefix.err);
    }
    var dict: seq<Entry>, rem := [], prefix.rem;
    while true
      invariant BenDict(s) == AsDict(s, Entries(rem, dict))
      decreases |rem|
    {
      var more, res, rem', dict' := ParseEntry(rem, dict);
      if !more {
        return AsDict(s, res);
      }
      rem, dict := rem', dict';
    }
  }

  /** One turn of the loop: either it goes on, or this is its result. */
  method ParseEntry(s: seq<byte>, es: seq<Entry>)
      returns (more: bool, r: PResult<seq<Entry>>, rem: seq<byte>, es': seq<Entry>)
    ensures if more then |rem| < |s| && Entries(s, es) == FailAt(s, Entries(rem, es')) else Entries(s, es) == r
  {
    StrObeys(s);
    var key := BencStr(AsCommented, s);
    if key.Panic? {
      return false, Panic, s, es;
    } else if key.Fail? {
      return false, FinishEntries(s, es, Tag(CHAR_E, s)), s, es;
    }
    more, r, rem, es' := ParseValue(key.value, key.rem, s, es);
  }

  method ParseValue(k: seq<byte>, t: seq<byte>, s: seq<byte>, es: seq<Entry>)
    returns (more: bool, r: PResult<seq<Entry>>, rem: seq<byte>, es': seq<Entry>)
    requires |t| < |s|
    ensures var e := AfterKey(Ok(k, t), s, es);
            if more then |rem| < |s| && e == FailAt(s, Entries(rem, es')) else e == r
  {
    var v := DictValue(t);
    if !v.Ok? {
      return false, if v.Panic? then Panic else Fail(s, v.err), s, es;
    }
    es', rem := Put(es, k, v.value), v.rem;
    var end := Tag(CHAR_E, rem);
    more := end == Fail(rem, Unmatched);
    r := FinishEntries(s, es', end);
  }

  function FinishEntries(s: seq<byte>, es: seq<Entry>, end: PResult<byte>): PResult<seq<Entry>> {
    match end
    case Ok(_, rem) => Ok(es, rem)
    case Fail(_, e) => Fail(s, e)
    case Panic => Panic
  }

  function AsDict(s: seq<byte>, r: PResult<seq<Entry>>): PResult<Value> {
    match r
    case Ok(es, rem) => Ok(Dict(es), rem)
    case Fail(_, e) => Fail(s, e)
    case Panic => Panic
  }

  /** The loop of BencList over the lists in a list. */
  method ParseLists(s: seq<byte>) returns (r: PResult<seq<Value>>)
    ensures r == ManyLists(s, [])
  {
    var l: seq<Value>, rem := [], s;
    while true
      invariant ManyLists(s, []) == if rem == s then ManyLists(rem, l) else FailAt(s, ManyLists(rem, l))
      decreases |rem|
    {
      var res := BencList(rem);
      if !res.Ok? {
        return if res.Panic? then Panic else Fail(s, res.err);
      }
      l := l + [res.value];
      var end := Tag(CHAR_E, res.rem);
      if end.Ok? {
        return Ok(l, end.rem);
      }
      if end.err != Unmatched {
        return Fail(s, end.err);
      }
      rem := res.rem;
    }
  }
}
