/** The chain of extensions between the header and the payload of a uTP packet. Each extension starts with the type of
    the next one and its own length; the type of the first is in the header, and type 0 ends the chain. */
module Extensions {
  import opened Bytes
  import opened Packet
  import opened Wrappers

  const SELECTIVE_ACK: byte := 1
  const INVALID_EXT: byte := 2

  datatype Ext = Ext(ty: byte, data: seq<byte>)

  /** b holds a well-formed chain from position i on, where the next extension has type ty. */
  predicate Chain(b: seq<byte>, i: nat, ty: byte)
    decreases |b| - i
  {
    if ty == 0 then i <= |b|
    else
      && i + 2 <= |b| && b[i + 1] > 0 && b[i + 1] % 4 == 0 && i + 2 + b[i + 1] <= |b|
      && Chain(b, i + 2 + b[i + 1], b[i])
  }

  /** Where the payload begins. */
  function PayloadStart(b: seq<byte>, i: nat, ty: byte): (n: nat)
    requires Chain(b, i, ty)
    ensures i <= n <= |b|
    decreases |b| - i
  {
    if ty == 0 then i else PayloadStart(b, i + 2 + b[i + 1], b[i])
  }

  function Exts(b: seq<byte>, i: nat, ty: byte): seq<Ext>
    requires Chain(b, i, ty)
    decreases |b| - i
  {
    if ty == 0 then [] else [Ext(ty, b[i + 2..i + 2 + b[i + 1]])] + Exts(b, i + 2 + b[i + 1], b[i])
  }

  predicate WellFormed(b: seq<byte>) {
    |b| >= HEADER_SIZE && Chain(b, HEADER_SIZE, b[1])
  }

  /** chectExts with the type advanced in the loop: it accepts exactly the well-formed chains. */
  method CheckChain(b: seq<byte>) returns (ok: bool)
    ensures ok <==> WellFormed(b)
  {
    if |b| < HEADER_SIZE {
      return false;
    }
    var i, extType := HEADER_SIZE, b[1];
    if |b| == HEADER_SIZE && extType != 0 {
      return false;
    }
    while i < |b| && extType != 0
      invariant HEADER_SIZE <= i
      invariant Chain(b, HEADER_SIZE, b[1]) <==> Chain(b, i, extType)
      invariant i <= |b|
      decreases |b| - i
    {
      if |b| < i + 2 {
        return false;
      }
      var l := b[i + 1];
      if l == 0 || l % 4 != 0 || i + 2 + l > |b| {
        return false;
      }
      extType := b[i];
      i := i + l + 2;
    }
    return extType == 0;
  }

  /** The packets accepted by the check as written are the well-formed ones without any extension. */
  lemma WrittenCheckRefusesExtensions(b: seq<byte>)
    requires |b| >= HEADER_SIZE && b[0] % 16 == 1 && b[0] / 16 <= 5
    ensures Decode(b).Ok? <==> WellFormed(b) && Exts(b, HEADER_SIZE, b[1]) == []
  {
  }

  /** payload, as written: on a well-formed packet it stays in bounds and skips exactly the extensions. */
  method GetPayload(p: seq<byte>) returns (payload: seq<byte>)
    requires WellFormed(p)
    ensures payload == p[PayloadStart(p, HEADER_SIZE, p[1])..]
  {
    var index, ext := HEADER_SIZE, p[1];
    while index < |p| && ext != 0
      invariant index <= |p| && Chain(p, index, ext)
      invariant PayloadStart(p, index, ext) == PayloadStart(p, HEADER_SIZE, p[1])
      decreases |p| - index
    {
      var len := p[index + 1];
      ext := p[index];
      index := index + len + 2;
    }
    payload := p[index..];
  }

  /** Where an iterator stands: the type of the next extension, and the position where that should begin. */
  datatype Cursor = Cursor(next: byte, i: nat)

  /** A call of next: there are no more extensions, or here is one, or the bytes to be read are not in the packet. */
  datatype Turn = Stop | Got(ext: Ext, c: Cursor) | Beyond

  /** As written the cursor moves past the two leading bytes only, and what follows is read as if it were another
      extension. */
  function NextTurn(b: Build, p: seq<byte>, c: Cursor): Turn {
    if c.next == 0 || c.i >= |p| then Stop
    else if c.i + 1 == |p| || c.i + 2 + p[c.i + 1] > |p| then Beyond
    else Got(Ext(c.next, p[c.i + 2..c.i + 2 + p[c.i + 1]]),
        Cursor(p[c.i], c.i + 2 + if b.AsWritten? then 0 else p[c.i + 1]))
  }

  /** The type of the first extension, as the iterator gives it; the types of the others it gives as they are. */
  function ExtType(n: byte): byte {
    if n > SELECTIVE_ACK then INVALID_EXT else n
  }

  /** A list of extensions, as the iterator gives it. */
  function Seen(exts: seq<Ext>): (r: seq<Ext>)
    ensures |r| == |exts| && forall i :: 0 <= i < |r| ==> r[i].data == exts[i].data
    ensures forall i :: 0 <= i < |r| ==> (r[i].ty == SELECTIVE_ACK <==> exts[i].ty == SELECTIVE_ACK)
  {
    if exts == [] then [] else [Ext(ExtType(exts[0].ty), exts[0].data)] + exts[1..]
  }

  class ExtIter {
    const build: Build
    const b: seq<byte>
    var nextExt: byte
    var i: nat

    function At(): Cursor
      reads this
    {
      Cursor(nextExt, i)
    }

    constructor (build: Build, p: seq<byte>)
      requires |p| >= HEADER_SIZE
      ensures b == p && At() == Cursor(ExtType(p[1]), HEADER_SIZE) && this.build == build
    {
      this.build, b, nextExt, i := build, p, ExtType(p[1]), HEADER_SIZE;
    }

    method Next() returns (turn: Turn)
      modifies this`nextExt, this`i
      ensures turn == NextTurn(build, b, old(At()))
      ensures At() == if turn.Got? then turn.c else old(At())
    {
      if nextExt == 0 {
        return Stop;
      } else if i < |b| {
        if i + 1 == |b| {
          return Beyond;
        }
        var extStart, len := i + 2, b[i + 1];
        if extStart + len > |b| {
          return Beyond;
        }
        var ext := Ext(nextExt, b[extStart..extStart + len]);
        nextExt := b[i];
        i := i + 2 + if build.AsWritten? then 0 else len;
        return Got(ext, At());
      } else {
        return Stop;
      }
    }
  }

  /** In a well-formed chain the repaired iterator returns the next extension, and leaves the rest of the chain. */
  lemma TurnInChain(p: seq<byte>, c: Cursor)
    requires Chain(p, c.i, c.next)
    ensures var turn := NextTurn(AsCommented, p, c);
            if c.next == 0 then turn == Stop
            else turn.Got? && Chain(p, turn.c.i, turn.c.next) && turn.c.i > c.i &&
                 [turn.ext] + Exts(p, turn.c.i, turn.c.next) == Exts(p, c.i, c.next)
  {
  }

  lemma SeenChain(p: seq<byte>, i: nat, ty: byte)
    requires Chain(p, i, ty)
    ensures Chain(p, i, ExtType(ty)) && Exts(p, i, ExtType(ty)) == Seen(Exts(p, i, ty))
  {
  }

  /** All the extensions of a packet, one after the other; and whether there are any more after the last one, as is
      asked when it is to be known whether one of them is a selective acknowledgement. */
  method Collect(p: seq<byte>) returns (exts: seq<Ext>, anyMore: bool)
    requires WellFormed(p)
    ensures exts == Seen(Exts(p, HEADER_SIZE, p[1])) && !anyMore
  {
    var iter := new ExtIter(AsCommented, p);
    SeenChain(p, HEADER_SIZE, p[1]);
    ghost var all := Exts(p, HEADER_SIZE, ExtType(p[1]));
    exts := [];
    TurnInChain(p, iter.At());
    var turn := iter.Next();
    while turn.Got?
      invariant fresh(iter) && iter.b == p && iter.build == AsCommented
      invariant Chain(p, iter.i, iter.nextExt) && !turn.Beyond?
      invariant if turn.Got? then exts + ([turn.ext] + Exts(p, iter.i, iter.nextExt)) == all
                else exts == all && NextTurn(AsCommented, p, iter.At()) == Stop
      decreases |p| - iter.i, turn.Got?
    {
      Shift(exts, turn.ext, Exts(p, iter.i, iter.nextExt));
      exts := exts + [turn.ext];
      TurnInChain(p, iter.At());
      turn := iter.Next();
    }
    turn := iter.Next();
    anyMore := turn.Got?;
  }

  lemma Shift(a: seq<Ext>, e: Ext, c: seq<Ext>)
    ensures a + ([e] + c) == a + [e] + c && a + [e] + [] == a + [e]
  {
  }

  // ---------- the chain as a list ----------

  function FirstType(exts: seq<Ext>): byte {
    if exts == [] then 0 else exts[0].ty
  }

  function Lay(exts: seq<Ext>): seq<byte>
    requires Sound(exts)
  {
    if exts == [] then [] else [FirstType(exts[1..]), |exts[0].data|] + exts[0].data + Lay(exts[1..])
  }

  /** Extensions that can be laid out: no type 0, and lengths that fit a byte and are positive multiples of 4. */
  predicate Sound(exts: seq<Ext>) {
    forall i :: 0 <= i < |exts| ==> exts[i].ty != 0 && 0 < |exts[i].data| < 0x100 && |exts[i].data| % 4 == 0
  }

  /** At position i of b the list exts is laid out, and the payload begins at n. */
  ghost predicate LaidAt(b: seq<byte>, i: nat, exts: seq<Ext>, n: nat) {
    var ty := FirstType(exts);
    Chain(b, i, ty) && Exts(b, i, ty) == exts && PayloadStart(b, i, ty) == n
  }

  /** A laid-out list is read back as that list, and the payload begins where the layout ends. */
  lemma {:induction false} LayIsRead(front: seq<byte>, exts: seq<Ext>, payload: seq<byte>)
    requires Sound(exts)
    ensures LaidAt(front + Lay(exts) + payload, |front|, exts, |front| + |Lay(exts)|)
    decreases |exts|
  {
    if exts != [] {
      var e, rest := exts[0], exts[1..];
      var head := [FirstType(rest), |e.data|] + e.data;
      LayIsRead(front + head, rest, payload);
      assert exts == [e] + rest;
      LaidInFront(front, [FirstType(rest), |e.data|], e.data, Lay(rest), payload);
      LayStep(front + Lay(exts) + payload, |front|, e, rest, |front| + |Lay(exts)|);
    }
  }

  /** One extension in front of a chain. */
  lemma LayStep(b: seq<byte>, i: nat, e: Ext, rest: seq<Ext>, n: nat)
    requires Sound([e]) && i + 2 + |e.data| <= |b|
    requires b[i] == FirstType(rest) && b[i + 1] == |e.data| && b[i + 2..i + 2 + |e.data|] == e.data
    requires LaidAt(b, i + 2 + |e.data|, rest, n)
    ensures LaidAt(b, i, [e] + rest, n)
  {
    assert [e][0] == e;
  }

  lemma LaidInFront(front: seq<byte>, two: seq<byte>, data: seq<byte>, lay: seq<byte>, payload: seq<byte>)
    requires |two| == 2
    ensures var b := front + (two + data + lay) + payload;
            && b == front + (two + data) + lay + payload
            && b[|front| + 2..|front| + 2 + |data|] == data && b[|front|] == two[0] && b[|front| + 1] == two[1]
  {
  }

  lemma {:induction false} ChainIsLaid(b: seq<byte>, i: nat, ty: byte)
    requires Chain(b, i, ty)
    ensures Sound(Exts(b, i, ty)) && FirstType(Exts(b, i, ty)) == ty
    ensures b[i..PayloadStart(b, i, ty)] == Lay(Exts(b, i, ty))
    decreases |b| - i
  {
    if ty != 0 {
      var l, n, rest := b[i + 1], PayloadStart(b, i, ty), Exts(b, i + 2 + b[i + 1], b[i]);
      ChainIsLaid(b, i + 2 + l, b[i]);
      var e := Ext(ty, b[i + 2..i + 2 + l]);
      assert Exts(b, i, ty) == [e] + rest && ([e] + rest)[1..] == rest;
      ThreeSlices(b, i, i + 2, i + 2 + l, n);
      LayOne(e, rest, b[i..i + 2], b[i + 2 + l..n]);
    }
  }

  lemma LayOne(e: Ext, rest: seq<Ext>, two: seq<byte>, lay: seq<byte>)
    requires Sound([e]) && Sound(rest) && lay == Lay(rest) && two == [FirstType(rest), |e.data|]
    ensures Sound([e] + rest) && Lay([e] + rest) == two + e.data + lay
  {
    assert ([e] + rest)[1..] == rest && [e][0] == e;
  }

  lemma ThreeSlices(b: seq<byte>, i: nat, j: nat, k: nat, n: nat)
    requires i <= j <= k <= n <= |b|
    ensures b[i..n] == b[i..j] + b[j..k] + b[k..n]
  {
  }

  /** Header, extensions and payload split every well-formed packet. */
  lemma PacketSplits(b: seq<byte>)
    requires WellFormed(b)
    ensures var n := PayloadStart(b, HEADER_SIZE, b[1]);
            Sound(Exts(b, HEADER_SIZE, b[1])) && b == b[..HEADER_SIZE] + Lay(Exts(b, HEADER_SIZE, b[1])) + b[n..]
  {
    ChainIsLaid(b, HEADER_SIZE, b[1]);
  }

  // ---------- the iterator as written ----------

  datatype Iterated = Iterated(exts: seq<Ext>) | OffThePacket

  /** Everything an iterator returns, from c on. */
  function Iterate(b: Build, p: seq<byte>, c: Cursor): Iterated
    decreases |p| - c.i
  {
    match NextTurn(b, p, c)
    case Stop => Iterated([])
    case Beyond => OffThePacket
    case Got(e, c') => InFront(e, Iterate(b, p, c'))
  }

  function InFront(e: Ext, r: Iterated): Iterated {
    if r.Iterated? then Iterated([e] + r.exts) else r
  }

  /** Are these extensions of the same types and lengths? */
  ghost predicate SameShape(exts: seq<Ext>, exts': seq<Ext>) {
    |exts| == |exts'| && forall i :: 0 <= i < |exts| ==> exts[i].ty == exts'[i].ty && |exts[i].data| == |exts'[i].data|
  }

  /** As written, iteration over extensions of these types and lengths is right, whatever they hold and whatever is
      around them. */
  ghost predicate WrittenIsRight(exts: seq<Ext>) {
    forall exts', front: seq<byte>, payload: seq<byte> :: Sound(exts') && SameShape(exts, exts') ==>
      Iterate(AsWritten, front + Lay(exts') + payload, Cursor(FirstType(exts'), |front|)) == Iterated(exts')
  }

  /** With the repair iteration is always right. */
  lemma IterationIsRight(exts: seq<Ext>, front: seq<byte>, payload: seq<byte>)
    requires Sound(exts)
    ensures Iterate(AsCommented, front + Lay(exts) + payload, Cursor(FirstType(exts), |front|)) == Iterated(exts)
  {
    LayIsRead(front, exts, payload);
    IterationIsChain(front + Lay(exts) + payload, Cursor(FirstType(exts), |front|));
  }

  /** As written it is right exactly if there are fewer than two extensions. */
  lemma WrittenIterationIff(exts: seq<Ext>)
    requires Sound(exts)
    ensures WrittenIsRight(exts) <==> |exts| <= 1
  {
    if |exts| <= 1 {
      forall exts', front: seq<byte>, payload: seq<byte> | Sound(exts') && SameShape(exts, exts')
        ensures Iterate(AsWritten, front + Lay(exts') + payload, Cursor(FirstType(exts'), |front|)) == Iterated(exts')
      {
        LayIsRead(front, exts', payload);
        OneIsIterated(front + Lay(exts') + payload, Cursor(FirstType(exts'), |front|));
      }
    } else {
      var exts' := Zeroed(exts);
      LayIsRead([], exts', []);
      SecondIsEmpty([] + Lay(exts') + [], Cursor(FirstType(exts'), 0));
    }
  }

  /** The same extensions, but the first one holds zeros. */
  lemma Zeroed(exts: seq<Ext>) returns (exts': seq<Ext>)
    requires Sound(exts) && |exts| >= 2
    ensures Sound(exts') && SameShape(exts, exts') && exts'[0].data == Zeros(|exts'[0].data|)
  {
    exts' := [Ext(exts[0].ty, Zeros(|exts[0].data|))] + exts[1..];
  }

  lemma {:induction false} IterationIsChain(p: seq<byte>, c: Cursor)
    requires Chain(p, c.i, c.next)
    ensures Iterate(AsCommented, p, c) == Iterated(Exts(p, c.i, c.next))
    decreases |p| - c.i
  {
    TurnInChain(p, c);
    if c.next != 0 {
      IterationIsChain(p, NextTurn(AsCommented, p, c).c);
    }
  }

  lemma OneIsIterated(p: seq<byte>, c: Cursor)
    requires Chain(p, c.i, c.next) && |Exts(p, c.i, c.next)| <= 1
    ensures Iterate(AsWritten, p, c) == Iterated(Exts(p, c.i, c.next))
  {
    if c.next != 0 {
      assert Exts(p, c.i + 2 + p[c.i + 1], p[c.i]) == [];
      assert Iterate(AsWritten, p, Cursor(p[c.i], c.i + 2)) == Iterated([]);
    }
  }

  /** Where the first of several extensions holds zeros, the second one is read as empty. */
  lemma SecondIsEmpty(p: seq<byte>, c: Cursor)
    requires Chain(p, c.i, c.next) && |Exts(p, c.i, c.next)| >= 2
    requires var data := Exts(p, c.i, c.next)[0].data; data == Zeros(|data|)
    ensures Iterate(AsWritten, p, c) != Iterated(Exts(p, c.i, c.next))
  {
    var exts, l := Exts(p, c.i, c.next), p[c.i + 1];
    assert exts[0].data == p[c.i + 2..c.i + 2 + l];
    assert p[c.i + 2] == exts[0].data[0] == 0 && p[c.i + 3] == exts[0].data[1] == 0;
    assert exts[1] == Exts(p, c.i + 2 + l, p[c.i])[0] && exts[1].data != [];
    var r := Iterate(AsWritten, p, Cursor(p[c.i], c.i + 2));
    assert NextTurn(AsWritten, p, Cursor(p[c.i], c.i + 2)) == Got(Ext(p[c.i], []), Cursor(0, c.i + 4));
    assert Iterate(AsWritten, p, Cursor(0, c.i + 4)) == Iterated([]) && [Ext(p[c.i], [])] + [] == [Ext(p[c.i], [])];
    assert r == Iterated([Ext(p[c.i], [])]);
    assert Iterate(AsWritten, p, c) == Iterated([exts[0]] + [Ext(p[c.i], [])]);
  }

  // ---------- adding a selective acknowledgement ----------

  /** The position of the type byte that ends the chain. */
  function LastType(b: seq<byte>, i: nat, ty: byte, at: nat): (n: nat)
    requires Chain(b, i, ty) && at < i
    ensures at <= n < PayloadStart(b, i, ty)
    decreases |b| - i
  {
    if ty == 0 then at else LastType(b, i + 2 + b[i + 1], b[i], i)
  }

  /** s with xs in the place of its elements from n on. */
  function Put(s: seq<byte>, n: nat, xs: seq<byte>): (r: seq<byte>)
    requires n + |xs| <= |s|
    ensures |r| == |s|
  {
    s[..n] + xs + s[n + |xs|..]
  }

  lemma PutNext(s: seq<byte>, n: nat, xs: seq<byte>, k: nat)
    requires n + |xs| <= |s| && k < |xs|
    ensures Put(s, n, xs[..k])[n + k := xs[k]] == Put(s, n, xs[..k + 1])
  {
  }

  /** append, to the first n elements of a: in place if there is room, and otherwise in a larger copy. */
  method Append(a: array<byte>, n: nat, xs: seq<byte>) returns (a': array<byte>, n': nat)
    requires n <= a.Length
    modifies a
    ensures n' == n + |xs| <= a'.Length && a'[..n'] == old(a[..n]) + xs
    ensures if n' <= a.Length then a' == a && a[..] == Put(old(a[..]), n, xs) else fresh(a') && a[..] == old(a[..])
  {
    n' := n + |xs|;
    if n' <= a.Length {
      a' := a;
      for k := 0 to |xs|
        invariant a[..] == Put(old(a[..]), n, xs[..k])
      {
        PutNext(old(a[..]), n, xs, k);
        a[n + k] := xs[k];
      }
      assert xs[..|xs|] == xs && a[..n'] == a[..][..n'] && old(a[..n]) == old(a[..])[..n];
    } else {
      var all := a[..n] + xs;
      var cap: nat :| cap >= |all|;
      a' := new byte[cap](i => if 0 <= i < |all| then all[i] else 0);
      assert a'[..n'] == all;
    }
  }

  /** Makes a selective acknowledgement the last extension of the chain, and says where the chain ends. */
  method MarkEnd(a: array<byte>, len: nat) returns (index: nat)
    requires len <= a.Length && WellFormed(a[..len])
    modifies a
    ensures var p := old(a[..len]);
            index == PayloadStart(p, HEADER_SIZE, p[1]) &&
                a[..] == old(a[..])[LastType(p, HEADER_SIZE, p[1], 1) := SELECTIVE_ACK]
  {
    ghost var p, all := a[..len], a[..];
    index := HEADER_SIZE;
    var ext := a[1];
    if ext == 0 {
      a[1] := SELECTIVE_ACK;
    } else {
      ghost var at := 1;
      while index < len && ext != 0
        invariant index <= len && Chain(p, index, ext) && at < index
        invariant a[..] == if ext == 0 then all[at := SELECTIVE_ACK] else all
        invariant PayloadStart(p, index, ext) == PayloadStart(p, HEADER_SIZE, p[1])
        invariant LastType(p, index, ext, at) == LastType(p, HEADER_SIZE, p[1], 1)
        decreases len - index
      {
        var l := a[index + 1];
        assert l == all[index + 1] == p[index + 1] && a[index] == all[index] == p[index];
        ext := a[index];
        if ext == 0 {
          a[index] := SELECTIVE_ACK;
        }
        at := index;
        index := index + l + 2;
      }
    }
  }

  /** setSack, on a packet of len bytes in an array that may have room for more. As written, what lies behind the chain
      is appended after its place has been written over; with the repair it is copied first. */
  method SetSack(b: Build, a: array<byte>, len: nat, bv: seq<byte>) returns (q: seq<byte>, ok: bool)
    requires len <= a.Length && WellFormed(a[..len])
    modifies a
    ensures ok <==> |bv| >= 4 && |bv| % 4 == 0
    ensures q == if !ok then old(a[..len])
                 else if b.AsCommented? then WithSack(old(a[..len]), bv) else SharedSack(old(a[..len]), bv, a.Length)
  {
    if |bv| < 4 || |bv| % 4 != 0 {
      return a[..len], false;
    }
    ghost var all := a[..];
    assert a[..len] == all[..len];
    var index := MarkEnd(a, len);
    ghost var marked := a[..];
    MarkedParts(all, len, LastType(all[..len], HEADER_SIZE, all[..len][1], 1), index);
    var tail := a[index..len];
    assert tail == marked[index..len];
    var left, n := AppendExt(a, index, bv);
    PutOverlays(marked, index, len, WrittenInPlace(bv, index, a.Length));
    tail := if b.AsWritten? then a[index..len] else tail;
    assert b.AsWritten? ==> tail == a[..][index..len];
    left, n := Append(left, n, tail);
    q := left[..n];
    ok := true;
  }

  lemma MarkedParts(s: seq<byte>, len: nat, at: nat, n: nat)
    requires at < n <= len <= |s|
    ensures var p, q := s[..len][at := SELECTIVE_ACK], s[at := SELECTIVE_ACK]; q[..n] == p[..n] && q[n..len] == p[n..]
  {
  }

  /** Appends the extension, in three steps, to the first n elements of a. */
  method AppendExt(a: array<byte>, n: nat, bv: seq<byte>) returns (left: array<byte>, m: nat)
    requires n <= a.Length
    modifies a
    ensures left == a || fresh(left)
    ensures m <= left.Length && left[..m] == old(a[..])[..n] + ([0, |bv| % 0x100] + bv)
    ensures a[..] == Put(old(a[..]), n, WrittenInPlace(bv, n, a.Length))
  {
    ghost var was := a[..];
    assert a[..n] == was[..n];
    left, m := Append(a, n, [0]);
    ThreeParts(was, n, |bv| % 0x100, bv);
    if left == a {
      left, m := Append(a, m, [|bv| % 0x100]);
      if left == a {
        left, m := Append(a, m, bv);
      } else {
        left, m := Append(left, m, bv);
      }
    } else {
      left, m := Append(left, m, [|bv| % 0x100]);
      left, m := Append(left, m, bv);
    }
  }

  lemma ThreeParts(s: seq<byte>, n: nat, l: byte, bv: seq<byte>)
    requires n <= |s|
    ensures s[..n] + [0] + [l] + bv == s[..n] + ([0, l] + bv) && Put(s, n, []) == s
    ensures n + 2 <= |s| ==> Put(Put(s, n, [0]), n + 1, [l]) == Put(s, n, [0, l])
    ensures n + 2 + |bv| <= |s| ==> Put(Put(s, n, [0, l]), n + 2, bv) == Put(s, n, [0, l] + bv)
  {
  }

  /** What is written behind position n while there is room. */
  function WrittenInPlace(bv: seq<byte>, n: nat, cap: nat): (w: seq<byte>)
    ensures n < cap ==> w != [] && w[0] == 0
  {
    if n + 2 + |bv| <= cap then [0, |bv| % 0x100] + bv
    else if n + 2 <= cap then [0, |bv| % 0x100]
    else if n + 1 <= cap then [0]
    else []
  }

  lemma PutOverlays(s: seq<byte>, n: nat, m: nat, w: seq<byte>)
    requires n <= m <= |s| && n + |w| <= |s|
    ensures Put(s, n, w)[n..m] == Overlaid(s[n..m], w)
  {
  }

  function Overlaid(s: seq<byte>, w: seq<byte>): (r: seq<byte>)
    ensures |r| == |s|
  {
    seq(|s|, i requires 0 <= i < |s| => if i < |w| then w[i] else s[i])
  }

  /** The packet with what was behind the chain written over. */
  function SharedSack(p: seq<byte>, bv: seq<byte>, cap: nat): seq<byte>
    requires WellFormed(p)
  {
    var q := p[LastType(p, HEADER_SIZE, p[1], 1) := SELECTIVE_ACK];
    var n := PayloadStart(p, HEADER_SIZE, p[1]);
    q[..n] + ([0, |bv| % 0x100] + bv) + Overlaid(q[n..], WrittenInPlace(bv, n, cap))
  }

  /** As written setSack is right exactly if what lies behind the chain begins like what is written over it. If there is
      anything at all, one byte at least is written over it, and that is 0. */
  lemma SharedSackIff(p: seq<byte>, bv: seq<byte>, cap: nat)
    requires WellFormed(p) && |p| <= cap
    ensures var n := PayloadStart(p, HEADER_SIZE, p[1]);
            var tail, w := p[n..], WrittenInPlace(bv, n, cap);
            && (SharedSack(p, bv, cap) == WithSack(p, bv) <==> BeginAlike(tail, w))
            && (tail != [] ==> w != [] && w[0] == 0)
  {
    var n, at := PayloadStart(p, HEADER_SIZE, p[1]), LastType(p, HEADER_SIZE, p[1], 1);
    var q, tail, w := p[at := SELECTIVE_ACK], p[n..], WrittenInPlace(bv, n, cap);
    assert q[n..] == tail;
    var front := q[..n] + ([0, |bv| % 0x100] + bv);
    assert SharedSack(p, bv, cap) == front + Overlaid(tail, w) && WithSack(p, bv) == front + tail;
    SameBehind(front, Overlaid(tail, w), tail);
    OverlaidIs(tail, w);
  }

  ghost predicate BeginAlike(s: seq<byte>, w: seq<byte>) {
    forall i :: 0 <= i < |s| && i < |w| ==> s[i] == w[i]
  }

  lemma OverlaidIs(s: seq<byte>, w: seq<byte>)
    ensures Overlaid(s, w) == s <==> BeginAlike(s, w)
  {
    if Overlaid(s, w) == s {
      forall i | 0 <= i < |s| && i < |w| ensures s[i] == w[i] {
        assert Overlaid(s, w)[i] == w[i];
      }
    }
  }

  lemma SameBehind(front: seq<byte>, a: seq<byte>, b: seq<byte>)
    ensures front + a == front + b <==> a == b
  {
    if front + a == front + b {
      assert (front + a)[|front|..] == a && (front + b)[|front|..] == b;
    }
  }

  function WithSack(p: seq<byte>, bv: seq<byte>): seq<byte>
    requires WellFormed(p)
  {
    var q := p[LastType(p, HEADER_SIZE, p[1], 1) := SELECTIVE_ACK];
    var n := PayloadStart(p, HEADER_SIZE, p[1]);
    q[..n] + ([0, |bv| % 0x100] + bv) + q[n..]
  }

  /** Of the layouts before and after, the second differs from the first in the type that ended the chain, and has e
      behind it. */
  ghost predicate LaidOnto(exts: seq<Ext>, e: Ext, before: seq<byte>, after: seq<byte>)
    requires exts != [] && Sound([e])
  {
    assert [e][0] == e;
    var last := |before| - |exts[|exts| - 1].data| - 2;
    0 <= last < |before| && after == before[last := e.ty] + ([0, |e.data|] + e.data)
  }

  lemma {:induction false} AppendToLayout(exts: seq<Ext>, e: Ext)
    requires Sound(exts) && Sound([e])
    ensures Sound(exts + [e])
    ensures exts == [] ==> Lay(exts + [e]) == [0, |e.data|] + e.data
    ensures exts != [] ==> LaidOnto(exts, e, Lay(exts), Lay(exts + [e]))
    decreases |exts|
  {
    SoundAppend(exts, e);
    if exts == [] {
      assert exts + [e] == [e] + [] && ([e] + [])[0] == e;
      LayCons(e, []);
    } else {
      var x, rest := exts[0], exts[1..];
      assert exts == [x] + rest && exts + [e] == [x] + (rest + [e]);
      if rest == [] {
        AppendToOne(x, e);
      } else {
        AppendToLayout(rest, e);
        AppendToMore(x, rest, e);
      }
    }
  }

  lemma SoundAppend(exts: seq<Ext>, e: Ext)
    requires Sound(exts) && Sound([e])
    ensures Sound(exts + [e])
  {
    assert [e][0] == e;
  }

  lemma AppendToOne(x: Ext, e: Ext)
    requires Sound([x]) && Sound([e]) && Sound([x] + [e])
    ensures LaidOnto([x], e, Lay([x]), Lay([x] + [e]))
  {
    assert [x] + [] == [x] && [e] + [] == [e] && [x][0] == x && [e][0] == e;
    LayCons(x, []);
    LayCons(e, []);
    LayCons(x, [e]);
    LaidOntoFirst(x, e);
  }

  lemma AppendToMore(x: Ext, rest: seq<Ext>, e: Ext)
    requires rest != [] && Sound([x] + rest) && Sound(rest) && Sound([e]) && Sound(rest + [e])
    requires Sound([x] + (rest + [e]))
    requires LaidOnto(rest, e, Lay(rest), Lay(rest + [e]))
    ensures LaidOnto([x] + rest, e, Lay([x] + rest), Lay([x] + (rest + [e])))
  {
    assert ([x] + rest)[0] == x;
    LayCons(x, rest);
    LayCons(x, rest + [e]);
    LaidOntoRest(x, rest, e, Lay(rest), Lay(rest + [e]), [FirstType(rest), |x.data|] + x.data);
  }

  lemma LayCons(x: Ext, rest: seq<Ext>)
    requires Sound([x] + rest) && |x.data| < 0x100
    ensures Sound(rest) && Lay([x] + rest) == [FirstType(rest), |x.data|] + x.data + Lay(rest)
  {
    assert ([x] + rest)[1..] == rest;
  }

  lemma LaidOntoFirst(x: Ext, e: Ext)
    requires |x.data| < 0x100 && Sound([e]) && |e.data| < 0x100
    ensures LaidOnto([x], e, [0, |x.data|] + x.data + [], [e.ty, |x.data|] + x.data + ([0, |e.data|] + e.data))
  {
  }

  lemma LaidOntoRest(x: Ext, rest: seq<Ext>, e: Ext, before: seq<byte>, after: seq<byte>, head: seq<byte>)
    requires rest != [] && Sound([e]) && LaidOnto(rest, e, before, after)
    ensures LaidOnto([x] + rest, e, head + before, head + after)
  {
    var last := |before| - |rest[|rest| - 1].data| - 2;
    assert head + before[last := e.ty] == (head + before)[|head| + last := e.ty];
  }

  lemma {:induction false} LastTypeInLayout(b: seq<byte>, i: nat, ty: byte, at: nat)
    requires Chain(b, i, ty) && at < i
    ensures var exts := Exts(b, i, ty);
            LastType(b, i, ty, at) == if ty == 0 then at else PayloadStart(b, i, ty) - |exts[|exts| - 1].data| - 2
    decreases |b| - i
  {
    if ty != 0 {
      LastTypeInLayout(b, i + 2 + b[i + 1], b[i], i);
    }
  }

  /** A vector whose length fits its byte becomes one more extension; the others and the payload stay as they were. */
  lemma SackIsAppended(p: seq<byte>, bv: seq<byte>)
    requires WellFormed(p) && 4 <= |bv| < 0x100 && |bv| % 4 == 0
    ensures var q := WithSack(p, bv);
            && WellFormed(q)
            && Exts(q, HEADER_SIZE, q[1]) == Exts(p, HEADER_SIZE, p[1]) + [Ext(SELECTIVE_ACK, bv)]
            && q[PayloadStart(q, HEADER_SIZE, q[1])..] == p[PayloadStart(p, HEADER_SIZE, p[1])..]
            && (forall k :: 0 <= k < HEADER_SIZE && k != 1 ==> q[k] == p[k])
  {
    var exts, n := Exts(p, HEADER_SIZE, p[1]), PayloadStart(p, HEADER_SIZE, p[1]);
    var front := if exts == [] then p[..HEADER_SIZE][1 := SELECTIVE_ACK] else p[..HEADER_SIZE];
    SackLayout(p, bv, front);
    LayIsRead(front, exts + [Ext(SELECTIVE_ACK, bv)], p[n..]);
    ChainIsLaid(p, HEADER_SIZE, p[1]);
  }

  lemma SackLayout(p: seq<byte>, bv: seq<byte>, front: seq<byte>)
    requires WellFormed(p) && 4 <= |bv| < 0x100 && |bv| % 4 == 0
    requires front ==
             if Exts(p, HEADER_SIZE, p[1]) == [] then p[..HEADER_SIZE][1 := SELECTIVE_ACK] else p[..HEADER_SIZE]
    ensures var exts := Exts(p, HEADER_SIZE, p[1]) + [Ext(SELECTIVE_ACK, bv)];
            Sound(exts) && WithSack(p, bv) == front + Lay(exts) + p[PayloadStart(p, HEADER_SIZE, p[1])..]
  {
    var exts, n := Exts(p, HEADER_SIZE, p[1]), PayloadStart(p, HEADER_SIZE, p[1]);
    PacketSplits(p);
    ChainIsLaid(p, HEADER_SIZE, p[1]);
    LastTypeInLayout(p, HEADER_SIZE, p[1], 1);
    SackAt(p, exts, n, LastType(p, HEADER_SIZE, p[1], 1), bv);
  }

  lemma SackAt(p: seq<byte>, exts: seq<Ext>, n: nat, at: nat, bv: seq<byte>)
    requires Sound(exts) && n == HEADER_SIZE + |Lay(exts)| <= |p| && p == p[..HEADER_SIZE] + Lay(exts) + p[n..]
    requires at == if exts == [] then 1 else n - |exts[|exts| - 1].data| - 2
    requires 4 <= |bv| < 0x100 && |bv| % 4 == 0
    ensures at < n && Sound(exts + [Ext(SELECTIVE_ACK, bv)])
    ensures var front := if exts == [] then p[..HEADER_SIZE][1 := SELECTIVE_ACK] else p[..HEADER_SIZE];
            p[at := SELECTIVE_ACK][..n] + ([0, |bv| % 0x100] + bv) + p[at := SELECTIVE_ACK][n..]
            == front + Lay(exts + [Ext(SELECTIVE_ACK, bv)]) + p[n..]
  {
    AppendToLayout(exts, Ext(SELECTIVE_ACK, bv));
    if exts == [] {
      SpliceHeader(p, SELECTIVE_ACK, n, [0, |bv| % 0x100] + bv);
    } else {
      SpliceLayout(p[..HEADER_SIZE], Lay(exts), p[n..], at - HEADER_SIZE, SELECTIVE_ACK, [0, |bv| % 0x100] + bv);
    }
  }

  lemma SpliceHeader(p: seq<byte>, t: byte, n: nat, more: seq<byte>)
    requires 1 < n <= |p|
    ensures p[1 := t][..n] + more + p[1 := t][n..] == p[..n][1 := t] + more + p[n..]
  {
  }

  lemma SpliceLayout(h: seq<byte>, lay: seq<byte>, tail: seq<byte>, at: nat, t: byte, more: seq<byte>)
    requires at < |lay|
    ensures var p, n := (h + lay + tail)[|h| + at := t], |h| + |lay|;
            p[..n] + more + p[n..] == h + (lay[at := t] + more) + tail
  {
  }

  // ---------- reading a datagram ----------

  /** A packet that has been read: what it says, and its extensions. */
  datatype Incoming = Incoming(seg: Segment, exts: seq<Ext>)

  /** PacketFromBytes with payload and extensions. As written only packets without extensions are accepted. */
  function Accept(b: Build, d: seq<byte>): Result<Incoming> {
    if |d| >= HEADER_SIZE && d[0] % 16 == 1 && d[0] / 16 <= 5 &&
        (if b.AsWritten? then d[1] == 0 else WellFormed(d)) then
      Ok(Incoming(View(d).(payload := d[PayloadStart(d, HEADER_SIZE, d[1])..]), Seen(Exts(d, HEADER_SIZE, d[1]))))
    else
      Err
  }

  method ReadPacket(b: Build, d: seq<byte>) returns (r: Result<Incoming>)
    ensures r == Accept(b, d)
  {
    if |d| < HEADER_SIZE || d[0] % 16 != 1 || d[0] / 16 > 5 {
      return Err;
    }
    var ok;
    if b.AsWritten? {
      ok := ChectExts(d);
    } else {
      ok := CheckChain(d);
    }
    if !ok {
      return Err;
    }
    var payload := GetPayload(d);
    var exts, anyMore := Collect(d);
    r := Ok(Incoming(Segment(GetType(d), ConnId(d), WndSize(d), SeqNr(d), AckNr(d), payload), exts));
  }

  /** A packet that has been built is read as what it was built from; as written it is refused. */
  lemma BuiltIsAccepted(b: Build, s: Segment, timestamp: u32, diff: u32)
    ensures Accept(b, Encode(b, s, timestamp, diff)) == if b.AsWritten? then Err else Ok(Incoming(s, []))
  {
    EncodeDecode(b, s, timestamp, diff);
  }

  /** setSack, on any acceptable packet: only the lowest byte of the vector's length travels. The peer refuses the
      packet if that is 0, and otherwise takes so many bytes for one more extension, and the others for the beginning of
      the payload. */
  lemma SackIsRead(p: seq<byte>, bv: seq<byte>)
    requires Accept(AsCommented, p).Ok? && |bv| >= 4 && |bv| % 4 == 0
    ensures var r, n := Accept(AsCommented, p).value, |bv| % 0x100;
            Accept(AsCommented, WithSack(p, bv)) ==
              if n == 0 then Err
              else Ok(Incoming(r.seg.(payload := bv[n..] + r.seg.payload), r.exts + [Ext(SELECTIVE_ACK, bv[..n])]))
  {
    var n := |bv| % 0x100;
    if n == 0 {
      NoLengthBreaks(p, bv);
    } else {
      RestIsRead(p, bv, n);
    }
  }

  /** The part of the vector that its length counts is an extension, and the rest comes before the payload. */
  lemma RestIsRead(p: seq<byte>, bv: seq<byte>, n: nat)
    requires Accept(AsCommented, p).Ok? && |bv| >= 4 && |bv| % 4 == 0 && n == |bv| % 0x100 && n > 0
    ensures var r := Accept(AsCommented, p).value;
            Accept(AsCommented, WithSack(p, bv)) ==
              Ok(Incoming(r.seg.(payload := bv[n..] + r.seg.payload), r.exts + [Ext(SELECTIVE_ACK, bv[..n])]))
  {
    var p' := RestInPayload(p, bv, n);
    AcceptRest(p, p', bv[n..]);
    SackIsAccepted(p', bv[..n]);
  }

  lemma NoLengthBreaks(p: seq<byte>, bv: seq<byte>)
    requires WellFormed(p) && |bv| % 0x100 == 0
    ensures !WellFormed(WithSack(p, bv))
  {
    var q, n, last := WithSack(p, bv), PayloadStart(p, HEADER_SIZE, p[1]), LastType(p, HEADER_SIZE, p[1], 1);
    var marked := p[last := SELECTIVE_ACK];
    Behind(marked[..n], [0, 0] + bv, marked[n..]);
    assert forall k :: 0 <= k < n ==> q[k] == marked[k];
    NoLengthIsRefused(p, q, HEADER_SIZE, p[1], 1);
  }

  lemma Behind(a: seq<byte>, b: seq<byte>, c: seq<byte>)
    ensures |a + b + c| >= |a| + |b| && (forall k :: 0 <= k < |a| ==> (a + b + c)[k] == a[k])
    ensures forall k :: 0 <= k < |b| ==> (a + b + c)[|a| + k] == b[k]
  {
  }

  /** The packet is read with the vector as one more extension if and only if the vector is shorter than 256 bytes. */
  lemma SackIsReadIff(p: seq<byte>, bv: seq<byte>)
    requires Accept(AsCommented, p).Ok? && |bv| >= 4 && |bv| % 4 == 0
    ensures var r := Accept(AsCommented, p).value;
            Accept(AsCommented, WithSack(p, bv)) == Ok(r.(exts := r.exts + [Ext(SELECTIVE_ACK, bv)])) <==> |bv| < 0x100
  {
    var r, n := Accept(AsCommented, p).value, |bv| % 0x100;
    if |bv| < 0x100 {
      SackIsAccepted(p, bv);
    } else {
      SackIsRead(p, bv);
      LastDiffers(r.exts, Ext(SELECTIVE_ACK, bv), Ext(SELECTIVE_ACK, bv[..n]));
    }
  }

  lemma LastDiffers(exts: seq<Ext>, e: Ext, e': Ext)
    ensures exts + [e] == exts + [e'] <==> e == e'
  {
    assert (exts + [e])[|exts|] == e && (exts + [e'])[|exts|] == e';
  }

  lemma AcceptRest(p: seq<byte>, p': seq<byte>, rest: seq<byte>)
    requires Accept(AsCommented, p).Ok? && WellFormed(p') && p'[..HEADER_SIZE] == p[..HEADER_SIZE]
    requires Exts(p', HEADER_SIZE, p'[1]) == Exts(p, HEADER_SIZE, p[1])
    requires p'[PayloadStart(p', HEADER_SIZE, p'[1])..] == rest + p[PayloadStart(p, HEADER_SIZE, p[1])..]
    ensures var r := Accept(AsCommented, p).value;
            Accept(AsCommented, p') == Ok(r.(seg := r.seg.(payload := rest + r.seg.payload)))
  {
    assert forall k :: 0 <= k < HEADER_SIZE ==> p'[k] == p'[..HEADER_SIZE][k] && p[k] == p[..HEADER_SIZE][k];
    SameHeader(p, p');
  }

  /** A short vector. */
  lemma SackIsAccepted(p: seq<byte>, bv: seq<byte>)
    requires Accept(AsCommented, p).Ok? && 4 <= |bv| < 0x100 && |bv| % 4 == 0
    ensures var r := Accept(AsCommented, p).value;
            Accept(AsCommented, WithSack(p, bv)) == Ok(r.(exts := r.exts + [Ext(SELECTIVE_ACK, bv)]))
  {
    SackIsAppended(p, bv);
    SeenAppend(Exts(p, HEADER_SIZE, p[1]), Ext(SELECTIVE_ACK, bv));
    SameHeader(p, WithSack(p, bv));
  }

  lemma SeenAppend(exts: seq<Ext>, e: Ext)
    requires e.ty == SELECTIVE_ACK
    ensures Seen(exts + [e]) == Seen(exts) + [e]
  {
  }

  /** Another payload does not change the chain. */
  lemma PayloadReplaced(p: seq<byte>, payload: seq<byte>)
    requires WellFormed(p)
    ensures var n := PayloadStart(p, HEADER_SIZE, p[1]);
            var p' := p[..n] + payload;
            && WellFormed(p') && p'[1] == p[1] && PayloadStart(p', HEADER_SIZE, p'[1]) == n
            && Exts(p', HEADER_SIZE, p'[1]) == Exts(p, HEADER_SIZE, p[1])
            && LastType(p', HEADER_SIZE, p'[1], 1) == LastType(p, HEADER_SIZE, p[1], 1)
  {
    var exts, n := Exts(p, HEADER_SIZE, p[1]), PayloadStart(p, HEADER_SIZE, p[1]);
    var p' := p[..n] + payload;
    PacketSplits(p);
    ChainIsLaid(p, HEADER_SIZE, p[1]);
    LayIsRead(p[..HEADER_SIZE], exts, payload);
    assert p[..n] == p[..HEADER_SIZE] + Lay(exts);
    LastTypeInLayout(p, HEADER_SIZE, p[1], 1);
    LastTypeInLayout(p', HEADER_SIZE, p'[1], 1);
  }

  /** Setting a long vector is like setting its beginning on a packet whose payload begins with the rest. */
  lemma RestInPayload(p: seq<byte>, bv: seq<byte>, n: nat) returns (p': seq<byte>)
    requires WellFormed(p) && |bv| >= 4 && |bv| % 4 == 0 && n == |bv| % 0x100 && n > 0
    ensures WellFormed(p') && p'[..HEADER_SIZE] == p[..HEADER_SIZE]
    ensures Exts(p', HEADER_SIZE, p'[1]) == Exts(p, HEADER_SIZE, p[1])
    ensures p'[PayloadStart(p', HEADER_SIZE, p'[1])..] == bv[n..] + p[PayloadStart(p, HEADER_SIZE, p[1])..]
    ensures WithSack(p', bv[..n]) == WithSack(p, bv)
  {
    var at, last := PayloadStart(p, HEADER_SIZE, p[1]), LastType(p, HEADER_SIZE, p[1], 1);
    p' := p[..at] + (bv[n..] + p[at..]);
    PayloadReplaced(p, bv[n..] + p[at..]);
    assert WithSack(p, bv) == p[last := SELECTIVE_ACK][..at] + ([0, n] + bv) + p[last := SELECTIVE_ACK][at..];
    assert |bv[..n]| % 0x100 == n;
    assert WithSack(p', bv[..n]) ==
        p'[last := SELECTIVE_ACK][..at] + ([0, n] + bv[..n]) + p'[last := SELECTIVE_ACK][at..];
    SpliceRest(p, p', bv, n, at, last);
  }

  lemma SpliceRest(p: seq<byte>, p': seq<byte>, bv: seq<byte>, n: byte, at: nat, last: nat)
    requires HEADER_SIZE <= at <= |p| && last < at && n <= |bv| && p' == p[..at] + (bv[n..] + p[at..])
    ensures p[last := SELECTIVE_ACK][..at] + ([0, n] + bv) + p[last := SELECTIVE_ACK][at..]
         == p'[last := SELECTIVE_ACK][..at] + ([0, n] + bv[..n]) + p'[last := SELECTIVE_ACK][at..]
    ensures p'[at..] == bv[n..] + p[at..] && p'[..HEADER_SIZE] == p[..HEADER_SIZE]
  {
    var q, q' := p[last := SELECTIVE_ACK], p'[last := SELECTIVE_ACK];
    assert q'[..at] == q[..at] && q'[at..] == bv[n..] + p[at..] && q[at..] == p[at..];
    Regrouped(q[..at], [0, n], bv[..n], bv[n..], p[at..]);
    assert bv == bv[..n] + bv[n..];
  }

  lemma Regrouped(a: seq<byte>, b: seq<byte>, c: seq<byte>, d: seq<byte>, e: seq<byte>)
    ensures a + (b + (c + d)) + e == a + (b + c) + (d + e)
  {
  }

  /** q is p with another extension at the end of the chain, whose length is 0. */
  lemma {:induction false} NoLengthIsRefused(p: seq<byte>, q: seq<byte>, i: nat, ty: byte, at: nat)
    requires Chain(p, i, ty) && at < i
    requires var n, last := PayloadStart(p, i, ty), LastType(p, i, ty, at);
             |q| >= n + 2 && q[n + 1] == 0 && q[last] != 0 && forall k :: 0 <= k < n && k != last ==> q[k] == p[k]
    ensures !Chain(q, i, if ty == 0 then q[at] else ty)
    decreases |p| - i
  {
    if ty != 0 {
      NoLengthIsRefused(p, q, i + 2 + p[i + 1], p[i], i);
    }
  }

  /** Whatever the vector, the header stays but for the type of the first extension. */
  lemma SackKeepsHeader(p: seq<byte>, bv: seq<byte>)
    requires WellFormed(p)
    ensures |WithSack(p, bv)| >= HEADER_SIZE && View(WithSack(p, bv)) == View(p).(payload := Payload(WithSack(p, bv)))
  {
    SameHeader(p, WithSack(p, bv));
  }

  lemma SameHeader(p: seq<byte>, q: seq<byte>)
    requires |p| >= HEADER_SIZE && |q| >= HEADER_SIZE && forall k :: 0 <= k < HEADER_SIZE && k != 1 ==> q[k] == p[k]
    ensures View(q) == View(p).(payload := Payload(q))
    ensures q[0] == p[0]
  {
  }
}
