/** The lock-free queue of many producers and one consumer, as interleaved atomic steps on explicit memory.
    Freed addresses may be handed out again by a later allocation. */
module MpscQueue {

  type Addr = nat
  type Thread = nat
  type Item = int

  datatype Ref = Null | Ref(addr: Addr)

  datatype Node = Node(data: Item, next: Ref)

  /** Where a producer stands in Enqueue: nothing pending, node built, or head exchanged and link still to be written. */
  datatype Producer = Idle | Built(node: Addr) | Swapped(prev: Addr, node: Addr)

  /** Where the consumer stands in Dequeue. */
  datatype Consumer =
    | Ready
    | HasTail(tail: Addr)
    | HasNext(tail: Addr, next: Addr)
    | HasData(tail: Addr, next: Addr, item: Item)
    | Moved(freed: Addr)

  /** Shared memory and control points; `chain`, `sent` and `got` are history: the live nodes from tail to head in the
      order of the head exchanges, the items in that order, and the items dequeued. */
  datatype State = State(mem: map<Addr, Node>, head: Addr, tail: Addr, producers: map<Thread, Producer>, consumer: Consumer,
                         chain: seq<Addr>, sent: seq<Item>, got: seq<Item>)

  datatype Action =
    | Build(t: Thread, addr: Addr, item: Item)  // new Node(input)
    | Exchange(t: Thread)                       // _head.exchange(node)
    | Link(t: Thread)                           // prevHead->Next.store(node)
    | LoadTail
    | LoadNext                                  // returns false when null
    | ReadData
    | StoreTail
    | Delete

  datatype Outcome = Next(s: State) | Blocked | Fault

  function At(s: State, t: Thread): Producer {
    if t in s.producers then s.producers[t] else Idle
  }

  /** The constructor: a node without data that is both head and tail. */
  function Start(addr: Addr, junk: Item): State {
    State(map[addr := Node(junk, Null)], addr, addr, map[], Ready, [addr], [], [])
  }

  /** One atomic step; Fault is an access to memory that is not live. */
  function Step(s: State, a: Action): Outcome {
    match a
    case Build(t, addr, item) =>
      if At(s, t) != Idle || addr in s.mem then Blocked
      else Next(s.(mem := s.mem[addr := Node(item, Null)], producers := s.producers[t := Built(addr)]))
    case Exchange(t) =>
      (match At(s, t)
       case Built(node) =>
         if node !in s.mem then Fault
         else Next(s.(head := node, producers := s.producers[t := Swapped(s.head, node)],
                      chain := s.chain + [node], sent := s.sent + [s.mem[node].data]))
       case _ => Blocked)
    case Link(t) =>
      (match At(s, t)
       case Swapped(prev, node) =>
         if prev !in s.mem then Fault
         else Next(s.(mem := s.mem[prev := s.mem[prev].(next := Ref(node))], producers := s.producers[t := Idle]))
       case _ => Blocked)
    case LoadTail =>
      if s.consumer != Ready then Blocked else Next(s.(consumer := HasTail(s.tail)))
    case LoadNext =>
      (match s.consumer
       case HasTail(tail) =>
         if tail !in s.mem then Fault
         else Next(s.(consumer := match s.mem[tail].next case Null => Ready case Ref(n) => HasNext(tail, n)))
       case _ => Blocked)
    case ReadData =>
      (match s.consumer
       case HasNext(tail, next) =>
         if next !in s.mem then Fault else Next(s.(consumer := HasData(tail, next, s.mem[next].data)))
       case _ => Blocked)
    case StoreTail =>
      (match s.consumer
       case HasData(tail, next, item) =>
         Next(s.(tail := next, consumer := Moved(tail), chain := if s.chain == [] then [] else s.chain[1..],
                 got := s.got + [item]))
       case _ => Blocked)
    case Delete =>
      (match s.consumer
       case Moved(freed) =>
         if freed !in s.mem then Fault else Next(s.(mem := s.mem - {freed}, consumer := Ready))
       case _ => Blocked)
  }

  // ---------- the invariant ----------

  ghost predicate Distinct(c: seq<Addr>) {
    forall i, j | 0 <= i < j < |c| :: c[i] != c[j]
  }

  /** Position i of the chain is linked to its successor, or its producer has still to write the link. */
  ghost predicate Joined(s: State, i: int)
    requires 0 <= i < |s.chain| - 1 && s.chain[i] in s.mem
  {
    || s.mem[s.chain[i]].next == Ref(s.chain[i + 1])
    || (s.mem[s.chain[i]].next == Null && exists t :: At(s, t) == Swapped(s.chain[i], s.chain[i + 1]))
  }

  ghost predicate ChainOk(s: State) {
    && s.chain != [] && Distinct(s.chain)
    && s.tail == s.chain[0] && s.head == s.chain[|s.chain| - 1]
    && (forall a <- s.chain :: a in s.mem)
    && s.mem[s.head].next == Null
    && (forall i | 0 <= i < |s.chain| - 1 :: Joined(s, i))
  }

  /** The node to link and the one it goes behind are neighbours in the chain, the link not being written. */
  ghost predicate Unlinked(s: State, prev: Addr, node: Addr) {
    exists i :: 0 <= i < |s.chain| - 1 && s.chain[i] == prev && s.chain[i + 1] == node
                && prev in s.mem && s.mem[prev].next == Null
  }

  /** A pending link joins two neighbours of the chain, and no other producer has the same one to write. */
  ghost predicate PendingOk(s: State) {
    && (forall t :: At(s, t).Swapped? ==> Unlinked(s, At(s, t).prev, At(s, t).node))
    && (forall t, u :: At(s, t).Swapped? && At(s, u).Swapped? && At(s, t).prev == At(s, u).prev ==> t == u)
  }

  /** A node built but not yet exchanged belongs to its producer alone. */
  ghost predicate BuiltOk(s: State) {
    && (forall t :: At(s, t).Built? ==>
          At(s, t).node in s.mem && s.mem[At(s, t).node].next == Null && At(s, t).node !in s.chain
          && (s.consumer.Moved? ==> s.consumer.freed != At(s, t).node))
    && (forall t, u :: At(s, t).Built? && At(s, u).Built? && At(s, t).node == At(s, u).node ==> t == u)
  }

  ghost predicate ConsumerOk(s: State)
    requires ChainOk(s)
  {
    match s.consumer
    case Ready => true
    case HasTail(tail) => tail == s.tail
    case HasNext(tail, next) => tail == s.tail && |s.chain| > 1 && s.mem[tail].next == Ref(next) && next == s.chain[1]
    case HasData(tail, next, item) =>
      tail == s.tail && |s.chain| > 1 && s.mem[tail].next == Ref(next) && next == s.chain[1] && item == s.mem[next].data
    case Moved(freed) => freed in s.mem && freed !in s.chain
  }

  /** Nothing is live but the chain, the nodes being enqueued, and the one about to be deleted. */
  ghost predicate NoLeak(s: State) {
    forall a <- s.mem :: Owned(s, a)
  }

  ghost predicate Owned(s: State, a: Addr) {
    a in s.chain || (exists t :: At(s, t) == Built(a)) || s.consumer == Moved(a)
  }

  function Items(s: State): seq<Item>
    requires forall a <- s.chain :: a in s.mem
  {
    seq(|s.chain|, i requires 0 <= i < |s.chain| => s.mem[s.chain[i]].data)
  }

  /** What was dequeued, followed by what stands in the chain behind the tail, is what was enqueued. */
  ghost predicate HistoryOk(s: State)
    requires ChainOk(s)
  {
    s.sent == s.got + Items(s)[1..]
  }

  ghost predicate Inv(s: State) {
    ChainOk(s) && PendingOk(s) && BuiltOk(s) && ConsumerOk(s) && NoLeak(s) && HistoryOk(s)
  }

  lemma StartOk(addr: Addr, junk: Item)
    ensures Inv(Start(addr, junk))
  {
  }

  // ---------- each step ----------

  lemma BuildShape(s: State, t: Thread, addr: Addr, item: Item)
    requires Step(s, Build(t, addr, item)).Next?
    ensures var r := Step(s, Build(t, addr, item)).s;
      && addr !in s.mem && At(s, t) == Idle
      && r == s.(mem := s.mem[addr := Node(item, Null)], producers := r.producers)
      && forall u :: At(r, u) == if u == t then Built(addr) else At(s, u)
  {
  }

  lemma BuildChain(s: State, t: Thread, addr: Addr, item: Item)
    requires ChainOk(s) && PendingOk(s) && Step(s, Build(t, addr, item)).Next?
    ensures ChainOk(Step(s, Build(t, addr, item)).s) && PendingOk(Step(s, Build(t, addr, item)).s)
  {
    BuildShape(s, t, addr, item);
    var r := Step(s, Build(t, addr, item)).s;
    hide Step, At;
    forall i | 0 <= i < |r.chain| - 1 ensures Joined(r, i) {
      assert Joined(s, i);
      JoinedOther(s, r, i, t);
    }
    forall u | At(r, u).Swapped? ensures Unlinked(r, At(r, u).prev, At(r, u).node) {
      assert Unlinked(s, At(s, u).prev, At(s, u).node);
    }
  }

  lemma BuildKeeps(s: State, t: Thread, addr: Addr, item: Item)
    requires Inv(s) && Step(s, Build(t, addr, item)).Next?
    ensures Inv(Step(s, Build(t, addr, item)).s)
  {
    BuildShape(s, t, addr, item);
    BuildChain(s, t, addr, item);
    var r := Step(s, Build(t, addr, item)).s;
    hide Step, At, Joined, Unlinked, PendingOk;
    assert Items(r) == Items(s);
    forall a | a in r.mem ensures Owned(r, a) {
      if a == addr {
        assert At(r, t) == Built(a);
      } else {
        assert Owned(s, a);
        if a !in s.chain && s.consumer != Moved(a) {
          var u :| At(s, u) == Built(a);
          assert At(r, u) == Built(a);
        }
      }
    }
  }

  /** A pending link survives the steps of other threads. */
  lemma JoinedOther(s: State, r: State, i: int, t: Thread)
    requires 0 <= i < |s.chain| - 1 && r.chain == s.chain && s.chain[i] in s.mem && s.chain[i] in r.mem
    requires r.mem[s.chain[i]] == s.mem[s.chain[i]]
    requires Joined(s, i) && !At(s, t).Swapped? && forall u :: u != t ==> At(r, u) == At(s, u)
    ensures Joined(r, i)
  {
    if s.mem[s.chain[i]].next == Null {
      var u :| At(s, u) == Swapped(s.chain[i], s.chain[i + 1]);
      assert At(r, u) == At(s, u);
    }
  }

  lemma ExchangeChain(s: State, t: Thread)
    requires ChainOk(s) && BuiltOk(s) && Step(s, Exchange(t)).Next?
    ensures ChainOk(Step(s, Exchange(t)).s)
  {
    var r := Step(s, Exchange(t)).s;
    assert r.chain == s.chain + [At(s, t).node];
    forall i | 0 <= i < |r.chain| - 1 ensures Joined(r, i) {
      if i == |s.chain| - 1 {
        assert At(r, t) == Swapped(r.chain[i], r.chain[i + 1]);
      } else {
        assert Joined(s, i);
        if s.mem[s.chain[i]].next == Null {
          var u :| At(s, u) == Swapped(s.chain[i], s.chain[i + 1]);
          assert At(r, u) == At(s, u);
        }
      }
    }
  }

  lemma ExchangePending(s: State, t: Thread)
    requires ChainOk(s) && BuiltOk(s) && PendingOk(s) && Step(s, Exchange(t)).Next?
    ensures PendingOk(Step(s, Exchange(t)).s)
  {
    var n := |s.chain|;
    var node := At(s, t).node;
    var r := Step(s, Exchange(t)).s;
    assert r.chain == s.chain + [node] && r.mem == s.mem;
    assert forall u :: At(r, u) == if u == t then Swapped(s.head, node) else At(s, u);
    hide Step, BuiltOk, At, Joined;
    assert r.chain[n - 1] == s.head && r.chain[n] == node;
    assert Unlinked(r, s.head, node);
    forall u | u != t && At(s, u).Swapped?
      ensures Unlinked(r, At(s, u).prev, At(s, u).node) && At(s, u).prev != s.head
    {
      assert Unlinked(s, At(s, u).prev, At(s, u).node);
      var i :| 0 <= i < n - 1 && s.chain[i] == At(s, u).prev && s.chain[i + 1] == At(s, u).node;
      assert r.chain[i] == s.chain[i] && r.chain[i + 1] == s.chain[i + 1];
      assert s.chain[i] != s.chain[n - 1];
    }
  }

  lemma ExchangeHistory(s: State, t: Thread)
    requires ChainOk(s) && BuiltOk(s) && HistoryOk(s) && Step(s, Exchange(t)).Next? && ChainOk(Step(s, Exchange(t)).s)
    ensures HistoryOk(Step(s, Exchange(t)).s)
  {
    hide Joined, Distinct;
    var item := s.mem[At(s, t).node].data;
    var r := Step(s, Exchange(t)).s;
    assert Items(r) == Items(s) + [item];
    hide Items;
    assert Items(r)[1..] == Items(s)[1..] + [item];
  }

  lemma ExchangeKeeps(s: State, t: Thread)
    requires Inv(s) && Step(s, Exchange(t)).Next?
    ensures Inv(Step(s, Exchange(t)).s)
  {
    ExchangeChain(s, t);
    ExchangePending(s, t);
    ExchangeHistory(s, t);
    var node := At(s, t).node;
    var r := Step(s, Exchange(t)).s;
    hide PendingOk, Joined, Unlinked, HistoryOk;
    assert forall u :: u != t ==> At(r, u) == At(s, u);
    forall a | a in r.mem ensures Owned(r, a) {
      assert Owned(s, a);
      if a !in s.chain && s.consumer != Moved(a) && a != node {
        var u :| At(s, u) == Built(a);
        assert At(r, u) == Built(a);
      }
    }
  }

  lemma LinkChain(s: State, t: Thread)
    requires ChainOk(s) && PendingOk(s) && Step(s, Link(t)).Next?
    ensures ChainOk(Step(s, Link(t)).s) && PendingOk(Step(s, Link(t)).s)
  {
    var prev, node := At(s, t).prev, At(s, t).node;
    var r := Step(s, Link(t)).s;
    assert Unlinked(s, prev, node);
    var k :| 0 <= k < |s.chain| - 1 && s.chain[k] == prev && s.chain[k + 1] == node;
    assert r.chain == s.chain && r.head == s.head && r.tail == s.tail && r.mem.Keys == s.mem.Keys;
    assert r.mem[prev].next == Ref(node) && forall a <- s.mem :: a != prev ==> r.mem[a] == s.mem[a];
    assert forall u :: At(r, u) == if u == t then Idle else At(s, u);
    hide Step, At;
    assert s.head != prev;
    forall i | 0 <= i < |r.chain| - 1 ensures Joined(r, i) {
      assert Joined(s, i);
      if i != k {
        assert s.chain[i] != prev;
        if s.mem[s.chain[i]].next == Null {
          var u :| At(s, u) == Swapped(s.chain[i], s.chain[i + 1]);
          assert At(r, u) == At(s, u);
        }
      }
    }
    forall u | At(r, u).Swapped? ensures Unlinked(r, At(r, u).prev, At(r, u).node) {
      assert u != t && Unlinked(s, At(s, u).prev, At(s, u).node);
      assert At(s, u).prev != prev;
    }
  }

  lemma LinkKeeps(s: State, t: Thread)
    requires Inv(s) && Step(s, Link(t)).Next?
    ensures Inv(Step(s, Link(t)).s)
  {
    LinkChain(s, t);
    var prev := At(s, t).prev;
    var r := Step(s, Link(t)).s;
    assert prev in s.chain && s.mem[prev].next == Null by { assert Unlinked(s, prev, At(s, t).node); }
    hide PendingOk, Joined, Unlinked;
    assert r.chain == s.chain && r.mem.Keys == s.mem.Keys;
    assert forall a <- s.mem :: r.mem[a].data == s.mem[a].data && (a != prev ==> r.mem[a] == s.mem[a]);
    assert Items(r) == Items(s);
    hide Items;
    assert forall u :: At(r, u) == if u == t then Idle else At(s, u);
    forall a | a in r.mem ensures Owned(r, a) {
      assert Owned(s, a);
      if a !in s.chain && s.consumer != Moved(a) {
        var u :| At(s, u) == Built(a);
        assert At(r, u) == Built(a);
      }
    }
  }

  lemma LookConsumer(s: State, a: Action)
    requires ChainOk(s) && ConsumerOk(s) && (a == LoadTail || a == LoadNext || a == ReadData) && Step(s, a).Next?
    ensures ChainOk(Step(s, a).s) ==> ConsumerOk(Step(s, a).s)
  {
    if a == LoadNext && |s.chain| > 1 {
      assert Joined(s, 0);
    }
  }

  /** The consumer's steps that only look. */
  lemma LookKeeps(s: State, a: Action)
    requires Inv(s) && (a == LoadTail || a == LoadNext || a == ReadData) && Step(s, a).Next?
    ensures Inv(Step(s, a).s)
  {
    var r := Step(s, a).s;
    assert r == s.(consumer := r.consumer) && !r.consumer.Moved? && !s.consumer.Moved?;
    assert forall u :: At(r, u) == At(s, u);
    LookConsumer(s, a);
    hide Step, ConsumerOk, At;
    forall i | 0 <= i < |r.chain| - 1 ensures Joined(r, i) {
      assert Joined(s, i);
      if s.mem[s.chain[i]].next == Null {
        var u :| At(s, u) == Swapped(s.chain[i], s.chain[i + 1]);
        assert At(r, u) == At(s, u);
      }
    }
    forall u | At(r, u).Swapped? ensures Unlinked(r, At(r, u).prev, At(r, u).node) {
      assert Unlinked(s, At(s, u).prev, At(s, u).node);
    }
    assert Items(r) == Items(s);
    forall b | b in r.mem ensures Owned(r, b) {
      assert Owned(s, b);
      if b !in s.chain {
        var u :| At(s, u) == Built(b);
        assert At(r, u) == Built(b);
      }
    }
  }

  lemma StoreTailChain(s: State)
    requires ChainOk(s) && PendingOk(s) && ConsumerOk(s) && Step(s, StoreTail).Next?
    ensures ChainOk(Step(s, StoreTail).s) && PendingOk(Step(s, StoreTail).s)
  {
    var r := Step(s, StoreTail).s;
    assert s.chain == [s.tail] + r.chain && r.tail == r.chain[0] && r.mem == s.mem && r.head == s.head;
    assert s.mem[s.tail].next != Null;
    assert forall u :: At(r, u) == At(s, u);
    hide Step, ConsumerOk, At;
    forall i | 0 <= i < |r.chain| - 1 ensures Joined(r, i) {
      assert r.chain[i] == s.chain[i + 1] && r.chain[i + 1] == s.chain[i + 2];
      assert Joined(s, i + 1);
      if s.mem[s.chain[i + 1]].next == Null {
        var u :| At(s, u) == Swapped(s.chain[i + 1], s.chain[i + 2]);
        assert At(r, u) == At(s, u);
      }
    }
    forall u | At(r, u).Swapped? ensures Unlinked(r, At(r, u).prev, At(r, u).node) {
      assert Unlinked(s, At(s, u).prev, At(s, u).node);
      var i :| 0 <= i < |s.chain| - 1 && s.chain[i] == At(s, u).prev && s.chain[i + 1] == At(s, u).node;
      assert i != 0;
      assert r.chain[i - 1] == s.chain[i] && r.chain[i] == s.chain[i + 1];
    }
  }

  lemma ItemsTail(s: State, r: State)
    requires forall a <- s.chain :: a in s.mem
    requires s.chain != [] && r.chain == s.chain[1..] && r.mem == s.mem
    ensures forall a <- r.chain :: a in r.mem
    ensures Items(s)[1..] == Items(r)
  {
  }

  lemma StoreTailHistory(s: State)
    requires ChainOk(s) && ConsumerOk(s) && HistoryOk(s) && Step(s, StoreTail).Next? && ChainOk(Step(s, StoreTail).s)
    ensures HistoryOk(Step(s, StoreTail).s)
  {
    hide Joined, Distinct;
    var r := Step(s, StoreTail).s;
    HistoryMoves(s, r, s.consumer.item);
  }

  lemma HistoryMoves(s: State, r: State, item: Item)
    requires ChainOk(s) && HistoryOk(s) && ChainOk(r)
    requires |s.chain| > 1 && r.mem == s.mem && r.chain == s.chain[1..] && r.sent == s.sent && r.got == s.got + [item]
    requires item == s.mem[s.chain[1]].data
    ensures HistoryOk(r)
  {
    hide Joined, Distinct;
    ItemsTail(s, r);
    assert Items(r)[0] == item;
    hide Items;
    assert Items(r) == [item] + Items(r)[1..];
  }

  lemma StoreTailShape(s: State)
    requires ChainOk(s) && ConsumerOk(s) && Step(s, StoreTail).Next?
    ensures var r := Step(s, StoreTail).s;
      && r.mem == s.mem && r.producers == s.producers && r.consumer == Moved(s.tail) && !s.consumer.Moved?
      && s.tail in s.mem && s.tail !in r.chain && s.tail in s.chain
      && (forall a <- r.chain :: a in s.chain) && (forall a <- s.chain :: a == s.tail || a in r.chain)
  {
    hide Joined;
    assert s.chain == [s.tail] + s.chain[1..];
  }

  lemma StoreTailKeeps(s: State)
    requires Inv(s) && Step(s, StoreTail).Next?
    ensures Inv(Step(s, StoreTail).s)
  {
    StoreTailChain(s);
    StoreTailHistory(s);
    var r := Step(s, StoreTail).s;
    StoreTailShape(s);
    assert forall u :: At(r, u) == At(s, u);
    hide Step, At, ChainOk, PendingOk, HistoryOk;
    forall b | b in r.mem ensures Owned(r, b) {
      assert Owned(s, b);
      if b !in s.chain {
        var u :| At(s, u) == Built(b);
        assert At(r, u) == Built(b);
      }
    }
  }

  lemma DeleteChain(s: State)
    requires ChainOk(s) && PendingOk(s) && ConsumerOk(s) && Step(s, Delete).Next?
    ensures ChainOk(Step(s, Delete).s) && PendingOk(Step(s, Delete).s)
  {
    var r := Step(s, Delete).s;
    assert r.chain == s.chain && r.head == s.head && r.tail == s.tail;
    assert forall a <- s.chain :: a in r.mem && r.mem[a] == s.mem[a];
    assert forall u :: At(r, u) == At(s, u);
    hide Step, ConsumerOk, At;
    forall i | 0 <= i < |r.chain| - 1 ensures Joined(r, i) {
      assert Joined(s, i);
      if s.mem[s.chain[i]].next == Null {
        var u :| At(s, u) == Swapped(s.chain[i], s.chain[i + 1]);
        assert At(r, u) == At(s, u);
      }
    }
    forall u | At(r, u).Swapped? ensures Unlinked(r, At(r, u).prev, At(r, u).node) {
      assert Unlinked(s, At(s, u).prev, At(s, u).node);
    }
  }

  lemma DeleteKeeps(s: State)
    requires Inv(s) && Step(s, Delete).Next?
    ensures Inv(Step(s, Delete).s)
  {
    DeleteChain(s);
    var r := Step(s, Delete).s;
    hide PendingOk, Joined;
    assert forall a <- s.chain :: a in r.mem && r.mem[a] == s.mem[a];
    assert Items(r) == Items(s);
    hide Items;
    assert forall u :: At(r, u) == At(s, u);
    forall b | b in r.mem ensures Owned(r, b) {
      assert Owned(s, b);
      if b !in s.chain {
        var u :| At(s, u) == Built(b);
        assert At(r, u) == Built(b);
      }
    }
  }

  lemma StepKeeps(s: State, a: Action)
    requires Inv(s) && Step(s, a).Next?
    ensures Inv(Step(s, a).s)
  {
    hide Inv;
    match a {
      case Build(t, addr, item) => BuildKeeps(s, t, addr, item);
      case Exchange(t) => ExchangeKeeps(s, t);
      case Link(t) => LinkKeeps(s, t);
      case StoreTail => StoreTailKeeps(s);
      case Delete => DeleteKeeps(s);
      case _ => LookKeeps(s, a);
    }
  }

  /** No step of any thread ever touches freed memory. */
  lemma NeverFaults(s: State, a: Action)
    requires Inv(s)
    ensures !Step(s, a).Fault?
  {
  }

  // ---------- runs ----------

  /** The state after a series of steps, those that are not possible being skipped. */
  function Run(s: State, acts: seq<Action>): State
    decreases |acts|
  {
    if acts == [] then s
    else match Step(s, acts[0])
      case Next(r) => Run(r, acts[1..])
      case _ => Run(s, acts[1..])
  }

  lemma {:induction false} RunKeeps(s: State, acts: seq<Action>)
    requires Inv(s)
    ensures Inv(Run(s, acts))
    decreases |acts|
  {
    hide Inv, Step;
    if acts != [] {
      match Step(s, acts[0]) {
        case Next(r) => StepKeeps(s, acts[0]); RunKeeps(r, acts[1..]);
        case _ => RunKeeps(s, acts[1..]);
      }
    }
  }

  /** Under every interleaving the items dequeued are a prefix of the items in the order of the head exchanges. */
  lemma FifoOrder(addr: Addr, junk: Item, acts: seq<Action>)
    ensures var s := Run(Start(addr, junk), acts); s.got <= s.sent
  {
    StartOk(addr, junk);
    RunKeeps(Start(addr, junk), acts);
    hide Run, PendingOk, BuiltOk, ConsumerOk, NoLeak;
  }

  /** Dequeue reports failure exactly when the queue is empty, or its oldest entry's producer has exchanged the head
      but not yet written the link. */
  lemma FailsOnlyIfUnlinked(addr: Addr, junk: Item, acts: seq<Action>)
    ensures var s := Run(Start(addr, junk), acts);
      s.consumer.HasTail? ==>
        && Step(s, LoadNext).Next?
        && (Step(s, LoadNext).s.consumer == Ready <==>
              |s.got| == |s.sent| || exists t :: At(s, t).Swapped? && At(s, t).prev == s.tail)
  {
    StartOk(addr, junk);
    RunKeeps(Start(addr, junk), acts);
    var s := Run(Start(addr, junk), acts);
    hide Run, Start, BuiltOk, NoLeak;
    if |s.chain| > 1 {
      assert Joined(s, 0);
    }
  }

  /** While a producer has a link to write, neither node is freed, and neither is about to be. */
  lemma PendingLinkIsLive(addr: Addr, junk: Item, acts: seq<Action>, t: Thread)
    ensures var s := Run(Start(addr, junk), acts);
      At(s, t).Swapped? ==>
        && At(s, t).prev in s.mem && At(s, t).node in s.mem
        && s.consumer != Moved(At(s, t).prev) && s.consumer != Moved(At(s, t).node)
  {
    StartOk(addr, junk);
    RunKeeps(Start(addr, junk), acts);
    var s := Run(Start(addr, junk), acts);
    hide Run, Start, BuiltOk, NoLeak, HistoryOk;
    if At(s, t).Swapped? {
      var i :| 0 <= i < |s.chain| - 1 && s.chain[i] == At(s, t).prev && s.chain[i + 1] == At(s, t).node;
      assert s.chain[i] in s.chain && s.chain[i + 1] in s.chain;
    }
  }

  // ---------- what becomes of every item ----------

  /** The items of calls that have built their node and not yet exchanged the head, from the steps alone. */
  function Begun(pend: map<Thread, Item>, a: Action): map<Thread, Item> {
    match a
    case Build(t, _, item) => pend[t := item]
    case Exchange(t) => pend - {t}
    case _ => pend
  }

  /** The items of the calls of Enqueue in the order of their exchanges, from the steps alone. */
  function Enqueued(pend: map<Thread, Item>, s: State, acts: seq<Action>): seq<Item>
    decreases |acts|
  {
    if acts == [] then []
    else match Step(s, acts[0])
      case Next(r) => Enters(pend, acts[0]) + Enqueued(Begun(pend, acts[0]), r, acts[1..])
      case _ => Enqueued(pend, s, acts[1..])
  }

  function Enters(pend: map<Thread, Item>, a: Action): seq<Item> {
    if a.Exchange? && a.t in pend then [pend[a.t]] else []
  }

  /** The nodes that are built hold the items of the calls that built them. */
  ghost predicate Agree(pend: map<Thread, Item>, s: State) {
    && (forall t :: t in pend <==> At(s, t).Built?)
    && (forall t :: t in pend ==> At(s, t).Built? && At(s, t).node in s.mem && s.mem[At(s, t).node].data == pend[t])
  }

  lemma StepAgrees(pend: map<Thread, Item>, s: State, a: Action)
    requires Inv(s) && Agree(pend, s) && Step(s, a).Next?
    ensures var r := Step(s, a).s; Agree(Begun(pend, a), r) && r.sent == s.sent + Enters(pend, a)
  {
    hide ChainOk, PendingOk, ConsumerOk, NoLeak, HistoryOk;
    var r := Step(s, a).s;
    match a {
      case Build(t, addr, item) => BuildShape(s, t, addr, item);
      case Exchange(t) => assert forall u :: At(r, u).Built? ==> u != t && At(r, u) == At(s, u);
      case Link(t) => assert forall u :: At(r, u).Built? ==> u != t && At(r, u) == At(s, u);
      case Delete => assert forall u :: At(r, u) == At(s, u);
      case _ => assert r.mem == s.mem && forall u :: At(r, u) == At(s, u);
    }
  }

  lemma {:induction false} RunAgrees(pend: map<Thread, Item>, s: State, acts: seq<Action>)
    requires Inv(s) && Agree(pend, s)
    ensures Run(s, acts).sent == s.sent + Enqueued(pend, s, acts)
    decreases |acts|
  {
    hide Inv, Step, Agree, Begun, Enters;
    if acts != [] {
      match Step(s, acts[0]) {
        case Next(r) =>
          StepAgrees(pend, s, acts[0]);
          StepKeeps(s, acts[0]);
          RunAgrees(Begun(pend, acts[0]), r, acts[1..]);
        case _ => RunAgrees(pend, s, acts[1..]);
      }
    }
  }

  /** Nothing is lost, doubled or made up: under every interleaving what was dequeued and what stands in the chain behind the
      tail are the items of the calls of Enqueue, in the order of their exchanges. */
  lemma EverythingEnters(addr: Addr, junk: Item, acts: seq<Action>)
    ensures var s := Run(Start(addr, junk), acts);
      && (forall a <- s.chain :: a in s.mem) && s.chain != []
      && s.got + Items(s)[1..] == Enqueued(map[], Start(addr, junk), acts)
  {
    var s0 := Start(addr, junk);
    StartOk(addr, junk);
    RunKeeps(s0, acts);
    assert Agree(map[], s0);
    RunAgrees(map[], s0, acts);
    hide Run, PendingOk, BuiltOk, ConsumerOk, NoLeak, Enqueued, Agree;
  }

  // ---------- the destructor ----------

  /** No call is under way. */
  ghost predicate Quiescent(s: State) {
    s.consumer == Ready && forall t :: At(s, t) == Idle
  }

  /** One whole Dequeue. */
  function Dequeue(s: State): State {
    var s1 := Take(s, LoadTail);
    var s2 := Take(s1, LoadNext);
    if s2.consumer == Ready then s2 else Take(Take(Take(s2, ReadData), StoreTail), Delete)
  }

  function Take(s: State, a: Action): State {
    match Step(s, a) case Next(r) => r case _ => s
  }

  /** Whether that Dequeue returns true. */
  predicate Succeeds(s: State) {
    Take(Take(s, LoadTail), LoadNext).consumer != Ready
  }

  /** The steps of an undisturbed Dequeue that finds an entry. */
  lemma DequeueSteps(s: State)
    requires Inv(s) && Quiescent(s) && |s.chain| > 1
    ensures s.chain[1] in s.mem && Dequeue(s) == s.(mem := s.mem - {s.tail}, tail := s.chain[1], chain := s.chain[1..],
                                                    got := s.got + [s.mem[s.chain[1]].data])
    ensures var tail, next := s.tail, s.chain[1];
      && Step(s, LoadTail) == Next(s.(consumer := HasTail(tail)))
      && Step(s.(consumer := HasTail(tail)), LoadNext) == Next(s.(consumer := HasNext(tail, next)))
      && Step(s.(consumer := HasNext(tail, next)), ReadData) == Next(s.(consumer := HasData(tail, next, s.mem[next].data)))
      && Step(s.(consumer := HasData(tail, next, s.mem[next].data)), StoreTail)
           == Next(s.(consumer := Moved(tail), tail := next, chain := s.chain[1..], got := s.got + [s.mem[next].data]))
  {
    assert Joined(s, 0);
    assert s.mem[s.tail].next == Ref(s.chain[1]);
    assert s.chain[1] in s.chain;
    hide PendingOk, BuiltOk, NoLeak, HistoryOk, Joined;
  }

  lemma DequeueQuiescent(s: State)
    requires Inv(s) && Quiescent(s)
    ensures var r := Dequeue(s);
      && Inv(r) && Quiescent(r) && (Succeeds(s) <==> |s.chain| > 1)
      && (|s.chain| > 1 ==> s.chain[1] in s.mem && r.chain == s.chain[1..] && r.sent == s.sent
                            && r.mem.Keys == s.mem.Keys - {s.tail} && r.got == s.got + [s.mem[s.chain[1]].data])
      && (|s.chain| == 1 ==> r == s)
  {
    if |s.chain| > 1 {
      DequeueSteps(s);
      hide Inv, Dequeue;
      var next := s.chain[1];
      var s1 := s.(consumer := HasTail(s.tail));
      var s2 := s.(consumer := HasNext(s.tail, next));
      var s3 := s.(consumer := HasData(s.tail, next, s.mem[next].data));
      var s4 := Step(s3, StoreTail).s;
      assert Step(s4, Delete) == Next(Dequeue(s));
      hide Step;
      LookKeeps(s, LoadTail);
      LookKeeps(s1, LoadNext);
      LookKeeps(s2, ReadData);
      StoreTailKeeps(s3);
      DeleteKeeps(s4);
      assert forall t :: At(Dequeue(s), t) == At(s, t);
    } else {
      hide PendingOk, BuiltOk, NoLeak, HistoryOk, Joined;
    }
  }

  /** The destructor: the loop that dequeues until that fails, then the deletion of the last node. The second result
      counts the deletions. */
  ghost function Drain(s: State): (State, nat)
    requires Inv(s) && Quiescent(s)
    decreases |s.chain|
  {
    DequeueQuiescent(s);
    if Succeeds(s) then
      var (r, freed) := Drain(Dequeue(s));
      (r, freed + 1)
    else
      (s.(mem := s.mem - {s.head}), 1)
  }

  /** Destroying a quiescent queue hands out everything that was enqueued and frees every node exactly once: none is
      left, and there are as many deletions as there were nodes. */
  lemma {:induction false} DrainFreesAll(s: State)
    requires Inv(s) && Quiescent(s)
    ensures Drain(s).0.mem == map[] && Drain(s).0.got == s.sent && Drain(s).1 == |s.mem|
    decreases |s.chain|
  {
    DequeueQuiescent(s);
    if |s.chain| > 1 {
      DrainFreesAll(Dequeue(s));
      assert s.tail in s.mem;
      hide Inv, Dequeue;
      assert |s.mem| == |s.mem.Keys| && |Dequeue(s).mem| == |Dequeue(s).mem.Keys|;
    } else {
      hide Dequeue;
      assert s.mem.Keys == {s.head};
      assert |s.mem| == |s.mem.Keys|;
      assert s.mem - {s.head} == map[];
      assert Items(s)[1..] == [];
    }
  }
}
