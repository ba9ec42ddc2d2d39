/** The byte ring buffer: a fixed array with a read index, a write index and a fill count. */
module RingBuffers {
  import opened Bits

  /** Values of char, which is signed. */
  type Char = c: int | -128 <= c <= 127 witness 0

  /** Values of unsigned char. */
  type Byte = b: int | 0 <= b <= 255 witness 0

  function ToByte(c: Char): Byte {
    if c < 0 then c + 256 else c
  }

  function ToChar(b: Byte): (c: Char)
    ensures ToByte(c) == b
  {
    if b > 127 then b - 256 else b
  }

  /** Index x of a ring of n, for x less than twice around. */
  function Wrap(x: nat, n: nat): nat {
    if x >= n then x - n else x
  }

  class Ring {
    var getindex: nat
    var putindex: nat
    var used: nat
    const total: nat
    const buf: array<Byte>
    /** What has been put and not yet got, oldest first. */
    ghost var contents: seq<Char>

    ghost predicate Valid()
      reads this, buf
    {
      && buf.Length == total
      && used <= total && |contents| == used
      && (total == 0 ==> getindex == putindex == 0)
      && (total > 0 ==> getindex < total && putindex == Wrap(getindex + used, total))
      && forall i :: 0 <= i < used ==> buf[Wrap(getindex + i, total)] == ToByte(contents[i])
    }

    /** A ring for size bytes. */
    constructor (size: nat)
      ensures Valid() && contents == [] && total == size && fresh(buf)
    {
      getindex, putindex, used := 0, 0, 0;
      total := size;
      buf := new Byte[size](_ => 0);
      contents := [];
    }

    method Put(c: Char) returns (r: int)
      requires Valid()
      modifies this, buf
      ensures Valid()
      ensures r == Offered(total, old(contents), PutOp(c)).1
      ensures contents == Offered(total, old(contents), PutOp(c)).0
    {
      if used >= total {
        return -1;
      }
      buf[putindex] := ToByte(c);
      putindex := putindex + 1;
      if putindex >= total {
        putindex := 0;
      }
      used := used + 1;
      contents := contents + [c];
      r := 0;
    }

    method Get() returns (r: int)
      requires Valid()
      modifies this, buf
      ensures Valid()
      ensures r == Offered(total, old(contents), GetOp).1
      ensures contents == Offered(total, old(contents), GetOp).0
    {
      if used == 0 {
        return -1;
      }
      used := used - 1;
      var c := ToChar(buf[getindex]);
      getindex := getindex + 1;
      if getindex >= total {
        getindex := 0;
      }
      contents := contents[1..];
      r := c;
    }

    method Empty() returns (b: bool)
      requires Valid()
      ensures b <==> contents == []
    {
      b := used == 0;
    }

    method Full() returns (b: bool)
      requires Valid()
      ensures b <==> |contents| == total
    {
      b := used >= total;
    }

    /** Any sequence of puts and gets. */
    method Run(ops: seq<Op>) returns (results: seq<int>)
      requires Valid()
      modifies this, buf
      ensures Valid()
      ensures results == RunQueue(total, old(contents), ops).results
      ensures contents == RunQueue(total, old(contents), ops).queue
    {
      results := [];
      var n := 0;
      ghost var q := contents;
      while n < |ops|
        invariant 0 <= n <= |ops| && Valid()
        invariant results == RunQueue(total, q, ops[..n]).results
        invariant contents == RunQueue(total, q, ops[..n]).queue
      {
        assert ops[..n+1][..n] == ops[..n];
        var r;
        match ops[n] {
          case PutOp(c) => r := Put(c);
          case GetOp => r := Get();
        }
        results := results + [r];
        n := n + 1;
      }
      assert ops[..n] == ops;
    }

    /** The write index is the read index plus the fill count, around the ring. */
    lemma IndexLaw()
      requires Valid() && total > 0
      ensures putindex == (getindex + used) % total
    {
      var s := getindex + used;
      DivModUnique(s, total, if s >= total then 1 else 0, putindex);
    }
  }

  // ---------------------------------------------------------------- the queue it stands for

  datatype Op = PutOp(c: Char) | GetOp

  /** A bounded queue: the queue after the operation and the value returned. */
  function Offered(total: nat, q: seq<Char>, op: Op): (seq<Char>, int) {
    match op
    case PutOp(c) => if |q| >= total then (q, -1) else (q + [c], 0)
    case GetOp => if q == [] then (q, -1) else (q[1..], q[0])
  }

  /** A run: the queue at its end, the values returned, the characters taken in and the characters given out. */
  datatype Outcome = Outcome(queue: seq<Char>, results: seq<int>, accepted: seq<Char>, delivered: seq<Char>)

  function RunQueue(total: nat, q: seq<Char>, ops: seq<Op>): (o: Outcome)
    ensures |o.results| == |ops|
    decreases |ops|
  {
    if ops == [] then Outcome(q, [], [], [])
    else
      var n := |ops| - 1;
      var o := RunQueue(total, q, ops[..n]);
      var next := Offered(total, o.queue, ops[n]);
      Outcome(next.0, o.results + [next.1],
              if ops[n].PutOp? && |o.queue| < total then o.accepted + [ops[n].c] else o.accepted,
              if ops[n].GetOp? && o.queue != [] then o.delivered + [o.queue[0]] else o.delivered)
  }

  /** First in, first out, nothing lost and nothing made up: over every run. */
  lemma {:induction false} RunConserves(total: nat, q: seq<Char>, ops: seq<Op>)
    requires |q| <= total
    ensures var o := RunQueue(total, q, ops);
            q + o.accepted == o.delivered + o.queue && |o.queue| <= total
    decreases |ops|
  {
    if ops != [] {
      var n := |ops| - 1;
      RunConserves(total, q, ops[..n]);
      var o := RunQueue(total, q, ops[..n]);
      if ops[n].PutOp? && |o.queue| < total {
        assert q + (o.accepted + [ops[n].c]) == (q + o.accepted) + [ops[n].c];
        assert o.delivered + (o.queue + [ops[n].c]) == (o.delivered + o.queue) + [ops[n].c];
      } else if ops[n].GetOp? && o.queue != [] {
        assert (o.delivered + [o.queue[0]]) + o.queue[1..] == o.delivered + o.queue;
      }
    }
  }

  /** The characters of the puts that returned zero, in order. */
  function Confirmed(ops: seq<Op>, results: seq<int>): seq<Char>
    requires |ops| == |results|
    decreases |ops|
  {
    if ops == [] then []
    else
      var n := |ops| - 1;
      Confirmed(ops[..n], results[..n]) + if ops[n].PutOp? && results[n] == 0 then [ops[n].c] else []
  }

  lemma {:induction false} AcceptedConfirmed(total: nat, q: seq<Char>, ops: seq<Op>)
    ensures RunQueue(total, q, ops).accepted == Confirmed(ops, RunQueue(total, q, ops).results)
    decreases |ops|
  {
    if ops != [] {
      var n := |ops| - 1;
      AcceptedConfirmed(total, q, ops[..n]);
      assert RunQueue(total, q, ops).results[..n] == RunQueue(total, q, ops[..n]).results;
    }
  }

  lemma {:induction false} ResultAt(total: nat, q: seq<Char>, ops: seq<Op>, k: nat)
    requires k < |ops|
    ensures RunQueue(total, q, ops).results[k] == Offered(total, RunQueue(total, q, ops[..k]).queue, ops[k]).1
    decreases |ops|
  {
    var n := |ops| - 1;
    if k < n {
      ResultAt(total, q, ops[..n], k);
      assert ops[..n][..k] == ops[..k];
    }
  }

  /** A put tells the truth, over every run: the characters taken in are those of the puts that returned zero, and any put
      returns zero if the ring is not full and -1 if it is. */
  lemma PutsTellTruth(total: nat, q: seq<Char>, ops: seq<Op>, k: nat)
    requires k < |ops| && ops[k].PutOp?
    ensures var o := RunQueue(total, q, ops);
            && o.accepted == Confirmed(ops, o.results)
            && o.results[k] == if |RunQueue(total, q, ops[..k]).queue| < total then 0 else -1
  {
    hide RunQueue, Confirmed;
    AcceptedConfirmed(total, q, ops);
    ResultAt(total, q, ops, k);
  }

  /** What a caller takes for data: results of gets other than -1. */
  function Seen(ops: seq<Op>, results: seq<int>): seq<int>
    requires |ops| == |results|
    decreases |ops|
  {
    if ops == [] then []
    else
      var n := |ops| - 1;
      Seen(ops[..n], results[..n]) + if ops[n].GetOp? && results[n] != -1 then [results[n]] else []
  }

  function Without(s: seq<Char>, c: Char): seq<int> {
    if s == [] then [] else Without(s[..|s| - 1], c) + if s[|s| - 1] != c then [s[|s| - 1]] else []
  }

  lemma {:induction false} SeenIsDelivered(total: nat, q: seq<Char>, ops: seq<Op>)
    ensures Seen(ops, RunQueue(total, q, ops).results) == Without(RunQueue(total, q, ops).delivered, -1)
    decreases |ops|
  {
    if ops != [] {
      var n := |ops| - 1;
      SeenIsDelivered(total, q, ops[..n]);
      var o, o' := RunQueue(total, q, ops[..n]), RunQueue(total, q, ops);
      assert o'.results[..n] == o.results;
      if ops[n].GetOp? && o.queue != [] {
        assert o'.delivered[..|o.delivered|] == o.delivered;
      }
    }
  }

  lemma {:induction false} WithoutAll(s: seq<Char>, c: Char)
    ensures |Without(s, c)| <= |s|
    ensures c !in s ==> Without(s, c) == s
    ensures c in s ==> |Without(s, c)| < |s|
  {
    if s != [] {
      var n := |s| - 1;
      WithoutAll(s[..n], c);
      assert s == s[..n] + [s[n]];
    }
  }

  lemma SeesAllSoFar(total: nat, q: seq<Char>, ops: seq<Op>)
    ensures var o := RunQueue(total, q, ops);
            Seen(ops, o.results) == o.delivered <==> -1 !in o.delivered
  {
    SeenIsDelivered(total, q, ops);
    WithoutAll(RunQueue(total, q, ops).delivered, -1);
  }

  // ---------------------------------------------------------------- when -1 misleads a caller

  /** n gets in a row. */
  function Gets(n: nat): (r: seq<Op>)
    ensures |r| == n
  {
    if n == 0 then [] else Gets(n - 1) + [GetOp]
  }

  /** A caller who runs ops and then n gets, and takes -1 for empty, sees exactly the characters given out. */
  predicate SeesAll(total: nat, q: seq<Char>, ops: seq<Op>, n: nat) {
    var all := ops + Gets(n);
    var o := RunQueue(total, q, all);
    Seen(all, o.results) == o.delivered
  }

  lemma OneMoreGet(total: nat, q: seq<Char>, ops: seq<Op>)
    requires RunQueue(total, q, ops).queue != []
    ensures var o, d := RunQueue(total, q, ops), RunQueue(total, q, ops + [GetOp]);
            d.queue == o.queue[1..] && d.delivered == o.delivered + [o.queue[0]] && d.accepted == o.accepted
  {
    assert (ops + [GetOp])[..|ops|] == ops;
  }

  /** Gets after a run give out the front of what it left, and take nothing in. */
  lemma {:induction false} Drained(total: nat, q: seq<Char>, ops: seq<Op>, n: nat)
    requires n <= |RunQueue(total, q, ops).queue|
    ensures var o, d := RunQueue(total, q, ops), RunQueue(total, q, ops + Gets(n));
            d.queue == o.queue[n..] && d.delivered == o.delivered + o.queue[..n] && d.accepted == o.accepted
    decreases n
  {
    hide RunQueue;
    if n == 0 {
      assert ops + Gets(0) == ops;
    } else {
      Drained(total, q, ops, n - 1);
      OneMoreGet(total, q, ops + Gets(n - 1));
      assert ops + Gets(n) == ops + Gets(n - 1) + [GetOp];
      var rest := RunQueue(total, q, ops).queue;
      assert rest[n-1..][1..] == rest[n..] && rest[..n] == rest[..n-1] + [rest[n-1..][0]];
    }
  }

  /** For a given ring: whatever number of the waiting characters the caller then fetches, all are seen,
      exactly when no -1 was waiting or was taken in. */
  lemma CallerSeesAll(total: nat, q: seq<Char>, ops: seq<Op>)
    requires |q| <= total
    ensures var o := RunQueue(total, q, ops);
            (forall n :: 0 <= n <= |o.queue| ==> SeesAll(total, q, ops, n)) <==> -1 !in q + o.accepted
  {
    var o := RunQueue(total, q, ops);
    RunConserves(total, q, ops);
    forall n | 0 <= n <= |o.queue| ensures SeesAll(total, q, ops, n) <==> -1 !in o.delivered + o.queue[..n] {
      Drained(total, q, ops, n);
      SeesAllSoFar(total, q, ops + Gets(n));
    }
    assert o.queue[..|o.queue|] == o.queue;
    if -1 in o.delivered + o.queue {
      assert !SeesAll(total, q, ops, |o.queue|);
    }
  }

  /** Only characters that were put are taken in; a ring that is large enough takes all of them in. */
  lemma {:induction false} AcceptedArePut(total: nat, q: seq<Char>, ops: seq<Op>, c: Char)
    ensures c in RunQueue(total, q, ops).accepted ==> PutOp(c) in ops
    ensures |RunQueue(total, q, ops).queue| <= |q| + |ops|
    ensures |q| + |ops| <= total ==> (PutOp(c) in ops ==> c in RunQueue(total, q, ops).accepted)
    decreases |ops|
  {
    if ops != [] {
      var n := |ops| - 1;
      AcceptedArePut(total, q, ops[..n], c);
      assert ops == ops[..n] + [ops[n]];
    }
  }

  lemma NeverMisledBy(total: nat, ops: seq<Op>, n: nat)
    requires PutOp(-1) !in ops
    ensures SeesAll(total, [], ops, n)
  {
    var all := ops + Gets(n);
    assert PutOp(-1) !in all by { GetsPutNothing(n); }
    var o := RunQueue(total, [], all);
    AcceptedArePut(total, [], all, -1);
    RunConserves(total, [], all);
    assert -1 !in o.delivered + o.queue;
    SeesAllSoFar(total, [], all);
  }

  lemma {:induction false} GetsPutNothing(n: nat)
    ensures PutOp(-1) !in Gets(n)
  {
    if n > 0 { GetsPutNothing(n - 1); }
  }

  /** The value -1 both reports an empty ring and is a character, the byte 0xFF. Starting from a new ring, the operations
      are safe for a caller who takes -1 for empty, on rings of every size and with any number of gets to follow,
      exactly when they put no -1. */
  lemma SafeToUse(ops: seq<Op>)
    ensures (forall total: nat, n: nat :: SeesAll(total, [], ops, n)) <==> PutOp(-1) !in ops
  {
    if PutOp(-1) !in ops {
      forall total: nat, n: nat ensures SeesAll(total, [], ops, n) {
        NeverMisledBy(total, ops, n);
      }
    } else {
      var total := |ops|;
      AcceptedArePut(total, [], ops, -1);
      CallerSeesAll(total, [], ops);
      assert -1 in [] + RunQueue(total, [], ops).accepted;
    }
  }

  /** One byte 0xFF through a one-byte ring: it is given out, and the caller sees nothing. */
  lemma MisledOnce()
    ensures var ops := [PutOp(-1), GetOp];
            var o := RunQueue(1, [], ops);
            o.results == [0, -1] && o.delivered == [-1] && Seen(ops, o.results) == []
  {
    var ops := [PutOp(-1), GetOp];
    assert ops[..1] == [PutOp(-1)] && ops[..1][..0] == [];
    var o := RunQueue(1, [], ops);
    assert RunQueue(1, [], ops[..1]).queue == [-1];
    assert o.results[..1] == [0] && o.results[..1][..0] == [];
    assert Seen(ops[..1], o.results[..1]) == [];
  }
}
