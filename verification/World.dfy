/** Admission to the world: a limit on active players, and a queue in which the others wait for a place. */
module World {
  import opened Numbers

  type Id = nat

  /** One session object; `n` tells apart the sessions that use the same id, in the order in which they were added. */
  datatype Session = Session(id: Id, n: nat)

  datatype Event =
    | Initialized(s: Session)
    | Position(s: Session, position: nat)
    | Kicked(s: Session)

  datatype State = State(sessions: map<Id, Session>, queue: seq<Session>, disconnects: map<Id, int>, limit: nat,
                         next: nat, events: seq<Event>)
  {
    /** GetActiveSessionCount, an unsigned 32-bit difference of two sizes below 2^32. */
    function Active(): nat {
      if |queue| <= |sessions| then |sessions| - |queue| else Wrap(|sessions| - |queue|)
    }
  }

  // ---------- the operations ----------

  function IndexOf(q: seq<Session>, s: Session): (i: nat)
    ensures i <= |q| && (i < |q| ==> q[i] == s) && forall j | 0 <= j < i :: q[j] != s
  {
    if q == [] || q[0] == s then 0 else 1 + IndexOf(q[1..], s)
  }

  /** Everyone from index `from` on is told the place, counted from one. */
  function Notices(q: seq<Session>, from: nat): seq<Event>
    requires from <= |q|
  {
    seq(|q| - from, i requires 0 <= i < |q| - from => Position(q[from + i], from + i + 1))
  }

  /** The part of RemoveQueuedPlayer after the search: `count` sessions are taken to be active, and the queue changed
      from index `from` on. */
  function Admit(w: State, count: int, from: nat): State
    requires from <= |w.queue|
  {
    if (w.limit == 0 || count < w.limit) && w.queue != [] then
      w.(queue := w.queue[1..], events := w.events + [Initialized(w.queue[0])] + Notices(w.queue[1..], 0))
    else
      w.(events := w.events + Notices(w.queue, from))
  }

  function Without(q: seq<Session>, i: nat): seq<Session> {
    if i < |q| then q[..i] + q[i + 1..] else q
  }

  function RemoveQueued(w: State, s: Session): (State, bool) {
    var i := IndexOf(w.queue, s);
    var found := i < |w.queue|;
    var count := if !found && w.Active() != 0 then w.Active() - 1 else w.Active();
    (Admit(w.(queue := Without(w.queue, i)), count, i), found)
  }

  /** What an update of the world does with a session that has ended. */
  function Remove(w: State, id: Id, now: int): State
    requires id in w.sessions
  {
    var s := w.sessions[id];
    var (w1, found) := RemoveQueued(w, s);
    var w2 := if found then w1 else w1.(disconnects := w1.disconnects[id := now]);
    var (w3, _) := RemoveQueued(w2, s);
    w3.(sessions := w3.sessions - {id})
  }

  /** The record of an id is dropped only if it lies 1000 seconds in the future. */
  predicate RecentlyDisconnected(w: State, id: Id, now: int) {
    id in w.disconnects && w.disconnects[id] - now < 1000
  }

  /** The scan of the records, in the order in which they are visited: it ends at the one of `id` if that is recent, and
      erases those it passes that are not. */
  function Scan(d: map<Id, int>, order: seq<Id>, id: Id, now: int): (map<Id, int>, bool) {
    if order == [] then (d, false)
    else if order[0] in d && d[order[0]] - now < 1000 then
      if order[0] == id then (d, true) else Scan(d, order[1..], id, now)
    else Scan(d - {order[0]}, order[1..], id, now)
  }

  /** A session that was just added is queued or initialized. */
  function Place(w: State, s: Session, now: int, order: seq<Id>): State {
    if w.limit > 0 && |w.sessions| - 1 >= w.limit then
      var (d, recent) := Scan(w.disconnects, order, s.id, now);
      var w1 := w.(disconnects := d);
      if recent then w1.(events := w.events + [Initialized(s)]) else w1.(queue := w.queue + [s])
    else w.(events := w.events + [Initialized(s)])
  }

  /** Adding a session; `loading` tells whether one that is there under the same id is still loading, `order` is the
      order in which the records of disconnections are visited. */
  function Add(w: State, id: Id, loading: bool, now: int, order: seq<Id>): State {
    var s := Session(id, w.next);
    var w0 := w.(next := w.next + 1);
    if id in w.sessions && loading then
      w0.(events := w.events + [Kicked(s)])
    else
      var kicked := if id in w.sessions then [Kicked(w.sessions[id]), Kicked(w.sessions[id])] else [];
      var w1 := w0.(sessions := w.sessions[id := s], events := w.events + kicked);
      Place(w1, s, now, order)
  }

  /** A scan visits nothing but records, and all of them unless it comes across the id it looks for. */
  ghost predicate Visits(order: seq<Id>, d: map<Id, int>, id: Id) {
    (forall k <- order :: k in d) && (id in order || forall k <- d :: k in order)
  }

  /** The scan finds a recent record in whatever order it visits them, and erases only records that are not recent. */
  lemma {:induction false} ScanFinds(d: map<Id, int>, order: seq<Id>, id: Id, now: int)
    requires id in order || id !in d
    ensures Scan(d, order, id, now).1 <==> id in d && d[id] - now < 1000
    ensures forall k :: k in Scan(d, order, id, now).0 ==> k in d && Scan(d, order, id, now).0[k] == d[k]
    ensures forall k :: k in d && d[k] - now < 1000 ==> k in Scan(d, order, id, now).0
    ensures id in order ==> (id in Scan(d, order, id, now).0 <==> id in d && d[id] - now < 1000)
    decreases |order|
  {
    if order != [] {
      if order[0] in d && d[order[0]] - now < 1000 {
        if order[0] != id {
          ScanFinds(d, order[1..], id, now);
        }
      } else if order[0] == id {
        ScanMisses(d - {id}, order[1..], id, now);
      } else {
        ScanFinds(d - {order[0]}, order[1..], id, now);
      }
    }
  }

  lemma {:induction false} ScanSnoc(d: map<Id, int>, order: seq<Id>, k: Id, id: Id, now: int)
    requires !Scan(d, order, id, now).1
    ensures Scan(d, order + [k], id, now) == Scan(Scan(d, order, id, now).0, [k], id, now)
    decreases |order|
  {
    if order == [] {
      assert [] + [k] == [k];
    } else {
      assert (order + [k])[1..] == order[1..] + [k];
      ScanSnoc(if order[0] in d && d[order[0]] - now < 1000 then d else d - {order[0]}, order[1..], k, id, now);
    }
  }

  lemma {:induction false} ScanMisses(d: map<Id, int>, order: seq<Id>, id: Id, now: int)
    requires id !in d
    ensures !Scan(d, order, id, now).1
    ensures forall k :: k in Scan(d, order, id, now).0 ==> k in d && Scan(d, order, id, now).0[k] == d[k]
    ensures forall k :: k in d && d[k] - now < 1000 ==> k in Scan(d, order, id, now).0
    decreases |order|
  {
    if order != [] {
      ScanMisses(if order[0] in d && d[order[0]] - now < 1000 then d else d - {order[0]}, order[1..], id, now);
    }
  }

  // ---------- the invariant ----------

  /** The queue holds sessions of the world in the order in which they were added, each once. */
  ghost predicate QueueOk(w: State) {
    && (forall i | 0 <= i < |w.queue| :: w.queue[i].id in w.sessions && w.sessions[w.queue[i].id] == w.queue[i])
    && (forall i, j | 0 <= i < j < |w.queue| :: w.queue[i].n < w.queue[j].n)
    && (forall id <- w.sessions :: w.sessions[id].id == id && w.sessions[id].n < w.next)
  }

  /** Nobody waits while there is a place, and no more than the limit play. */
  ghost predicate LimitOk(w: State) {
    && |w.queue| <= |w.sessions| && w.Active() <= w.limit
    && (w.queue != [] ==> w.Active() == w.limit)
  }

  ghost predicate Inv(w: State) {
    w.limit > 0 && QueueOk(w) && LimitOk(w)
  }

  function Start(limit: nat): State {
    State(map[], [], map[], limit, 0, [])
  }

  lemma StartOk(limit: nat)
    requires limit > 0
    ensures Inv(Start(limit))
  {
  }

  // ---------- removal ----------

  lemma MapMinus(m: map<Id, Session>, id: Id)
    requires id in m
    ensures |m - {id}| == |m| - 1
  {
    assert (m - {id}).Keys == m.Keys - {id};
    assert |m| == |m.Keys| && |m - {id}| == |(m - {id}).Keys|;
  }

  lemma MapPlus(m: map<Id, Session>, id: Id, s: Session)
    ensures |m[id := s]| == if id in m then |m| else |m| + 1
  {
    assert m[id := s].Keys == m.Keys + {id};
    assert |m| == |m.Keys| && |m[id := s]| == |m[id := s].Keys|;
  }

  /** The first call when the session was waiting: it leaves the queue, nobody is admitted. */
  lemma RemoveWaiting(w: State, id: Id, now: int)
    requires Inv(w) && id in w.sessions && w.sessions[id] in w.queue
    ensures var i := IndexOf(w.queue, w.sessions[id]);
      && i < |w.queue|
      && Remove(w, id, now) == w.(sessions := w.sessions - {id}, queue := Without(w.queue, i),
                                  events := w.events + Notices(Without(w.queue, i), i))
  {
    var s := w.sessions[id];
    var i := IndexOf(w.queue, s);
    var w1 := w.(queue := Without(w.queue, i), events := w.events + Notices(Without(w.queue, i), i));
    assert RemoveQueued(w, s) == (w1, true);
    assert IndexOf(w1.queue, s) == |w1.queue|;
    assert Notices(w1.queue, |w1.queue|) == [];
    assert w1.Active() == w.limit + 1;
    assert w1.events + [] == w1.events;
    assert RemoveQueued(w1, s) == (w1, false);
  }

  /** When it was active: the first in the queue takes the place and the others move up. */
  lemma RemoveActive(w: State, id: Id, now: int)
    requires Inv(w) && id in w.sessions && w.sessions[id] !in w.queue
    ensures Remove(w, id, now) ==
      if w.queue == [] then w.(sessions := w.sessions - {id}, disconnects := w.disconnects[id := now])
      else w.(sessions := w.sessions - {id}, queue := w.queue[1..], disconnects := w.disconnects[id := now],
              events := w.events + [Initialized(w.queue[0])] + Notices(w.queue[1..], 0))
  {
    var s := w.sessions[id];
    assert IndexOf(w.queue, s) == |w.queue|;
    ActiveCounts(w, id);
    var w1 := RemoveQueued(w, s).0;
    var w2 := w1.(disconnects := w1.disconnects[id := now]);
    assert IndexOf(w2.queue, s) == |w2.queue|;
    assert Notices(w2.queue, |w2.queue|) == [];
    assert w2.events + [] == w2.events;
    assert w.events + [] == w.events;
    assert RemoveQueued(w2, s) == (w2, false);
  }

  /** A session that does not wait is counted among the active. */
  lemma ActiveCounts(w: State, id: Id)
    requires QueueOk(w) && id in w.sessions && w.sessions[id] !in w.queue
    ensures w.Active() >= 1
  {
    var ids := set i | 0 <= i < |w.queue| :: w.queue[i].id;
    IdsOf(w, w.queue);
    assert ids <= w.sessions.Keys - {id};
    SubsetSize(ids, w.sessions.Keys - {id});
    assert |w.sessions| == |w.sessions.Keys|;
  }

  lemma {:induction false} IdsOf(w: State, q: seq<Session>)
    requires forall i | 0 <= i < |q| :: q[i].id in w.sessions && w.sessions[q[i].id] == q[i]
    requires forall i, j | 0 <= i < j < |q| :: q[i].n < q[j].n
    ensures |set i | 0 <= i < |q| :: q[i].id| == |q|
  {
    var ids := set i | 0 <= i < |q| :: q[i].id;
    if q == [] {
      assert ids == {};
    } else {
      var r := q[..|q| - 1];
      IdsOf(w, r);
      var rest := set i | 0 <= i < |r| :: r[i].id;
      assert ids == rest + {q[|q| - 1].id};
      assert q[|q| - 1].id !in rest;
    }
  }

  lemma SubsetSize(a: set<Id>, b: set<Id>)
    requires a <= b
    ensures |a| <= |b|
  {
    assert |b| == |a| + |b - a| by { assert b == a + (b - a); }
  }

  lemma DropKeeps(w: State, r: State, id: Id, i: nat)
    requires Inv(w) && id in w.sessions && i < |w.queue| && w.queue[i] == w.sessions[id]
    requires r.sessions == w.sessions - {id} && r.queue == Without(w.queue, i) && r.limit == w.limit && r.next == w.next
    ensures Inv(r)
  {
    MapMinus(w.sessions, id);
    assert forall k | 0 <= k < |r.queue| :: r.queue[k] == w.queue[if k < i then k else k + 1];
  }

  lemma PassKeeps(w: State, r: State, id: Id)
    requires Inv(w) && id in w.sessions && w.sessions[id] !in w.queue
    requires r.sessions == w.sessions - {id} && r.limit == w.limit && r.next == w.next
    requires r.queue == if w.queue == [] then [] else w.queue[1..]
    ensures Inv(r)
  {
    MapMinus(w.sessions, id);
    ActiveCounts(w, id);
    assert forall k | 0 <= k < |w.queue| :: w.queue[k] in w.queue;
    assert forall k | 0 <= k < |r.queue| :: r.queue[k] == w.queue[k + 1];
  }

  lemma RemoveKeeps(w: State, id: Id, now: int)
    requires Inv(w) && id in w.sessions
    ensures Inv(Remove(w, id, now)) && Remove(w, id, now).sessions == w.sessions - {id}
    ensures Remove(w, id, now).limit == w.limit
  {
    hide Inv, IndexOf, Remove, Notices, Without;
    if w.sessions[id] in w.queue {
      RemoveWaiting(w, id, now);
      DropKeeps(w, Remove(w, id, now), id, IndexOf(w.queue, w.sessions[id]));
    } else {
      RemoveActive(w, id, now);
      PassKeeps(w, Remove(w, id, now), id);
    }
  }

  // ---------- what is announced ----------

  function News(w: State, r: State): seq<Event>
    requires w.events <= r.events
  {
    r.events[|w.events|..]
  }

  lemma NewsIs(w: State, r: State, es: seq<Event>)
    requires r.events == w.events + es
    ensures w.events <= r.events && News(w, r) == es
  {
  }

  lemma NoticesExact(q: seq<Session>, from: nat)
    requires from <= |q|
    ensures forall s, p: nat :: Position(s, p) in Notices(q, from) <==> from < p <= |q| && q[p - 1] == s
    ensures forall s :: Initialized(s) !in Notices(q, from)
  {
    forall s, p: nat | from < p <= |q| && q[p - 1] == s ensures Position(s, p) in Notices(q, from) {
      assert Notices(q, from)[p - 1 - from] == Position(s, p);
    }
  }

  lemma RemoveNews(w: State, id: Id, now: int)
    requires Inv(w) && id in w.sessions
    ensures var r := Remove(w, id, now);
      && w.events <= r.events
      && if w.sessions[id] in w.queue
         then var i := IndexOf(w.queue, w.sessions[id]);
           i < |w.queue| && r.queue == Without(w.queue, i) && News(w, r) == Notices(r.queue, i)
         else if w.queue == [] then r.queue == [] && News(w, r) == []
         else r.queue == w.queue[1..] && News(w, r) == [Initialized(w.queue[0])] + Notices(r.queue, 0)
  {
    hide Inv, IndexOf, Remove, Notices, News;
    var r := Remove(w, id, now);
    if w.sessions[id] in w.queue {
      RemoveWaiting(w, id, now);
      NewsIs(w, r, Notices(r.queue, IndexOf(w.queue, w.sessions[id])));
    } else {
      RemoveActive(w, id, now);
      if w.queue == [] {
        assert w.events + [] == w.events;
        NewsIs(w, r, []);
      } else {
        assert w.events + [Initialized(w.queue[0])] + Notices(r.queue, 0)
            == w.events + ([Initialized(w.queue[0])] + Notices(r.queue, 0));
        NewsIs(w, r, [Initialized(w.queue[0])] + Notices(r.queue, 0));
      }
    }
  }

  lemma LeavesOnly(q: seq<Session>, i: nat)
    requires i < |q|
    ensures forall x <- q :: x in Without(q, i) || x == q[i]
  {
    assert q == q[..i] + [q[i]] + q[i + 1..];
  }

  /** Places are given in the order of arrival: whoever is admitted was first in the queue and came before all who
      still wait. */
  lemma AdmitsFirst(w: State, id: Id, now: int)
    requires Inv(w) && id in w.sessions
    ensures var r := Remove(w, id, now);
      && w.events <= r.events
      && forall s | Initialized(s) in News(w, r) :: w.queue != [] && s == w.queue[0] && forall q <- r.queue :: s.n < q.n
  {
    RemoveNews(w, id, now);
    var r := Remove(w, id, now);
    hide Remove, Notices, IndexOf, News, LimitOk;
    if w.sessions[id] in w.queue {
      NoticesExact(r.queue, IndexOf(w.queue, w.sessions[id]));
    } else if w.queue != [] {
      NoticesExact(r.queue, 0);
      assert forall k | 0 <= k < |r.queue| :: r.queue[k] == w.queue[k + 1];
    }
  }

  /** Nobody leaves the queue but the session that ended and the one that was admitted. */
  lemma NobodyLost(w: State, id: Id, now: int)
    requires Inv(w) && id in w.sessions
    ensures var r := Remove(w, id, now);
      && w.events <= r.events
      && forall q <- w.queue :: q in r.queue || q == w.sessions[id] || Initialized(q) in News(w, r)
  {
    RemoveNews(w, id, now);
    var r := Remove(w, id, now);
    hide Inv, Remove, Notices, News;
    if w.sessions[id] in w.queue {
      LeavesOnly(w.queue, IndexOf(w.queue, w.sessions[id]));
    } else if w.queue != [] {
      LeavesOnly(w.queue, 0);
      assert Without(w.queue, 0) == r.queue;
      assert ([Initialized(w.queue[0])] + Notices(r.queue, 0))[0] == Initialized(w.queue[0]);
    }
  }

  /** Every place that is announced is the new one, counted from one, and everyone whose place changed is told. */
  lemma PlacesAreNew(w: State, id: Id, now: int)
    requires Inv(w) && id in w.sessions
    ensures var r := Remove(w, id, now);
      && w.events <= r.events
      && (forall s, p: nat | Position(s, p) in News(w, r) :: 1 <= p <= |r.queue| && r.queue[p - 1] == s)
      && (forall k: nat | k < |r.queue| ::
            (k < |w.queue| && w.queue[k] == r.queue[k]) || Position(r.queue[k], k + 1) in News(w, r))
  {
    RemoveNews(w, id, now);
    var r := Remove(w, id, now);
    hide Inv, Remove, Notices, IndexOf, News;
    if w.sessions[id] in w.queue {
      NoticesExact(r.queue, IndexOf(w.queue, w.sessions[id]));
    } else if w.queue != [] {
      NoticesExact(r.queue, 0);
    }
  }

  // ---------- adding ----------

  /** What a new session must meet for the rules of admission to survive it: an id not in use may come back only while
      there is a place; a session that replaces another one needs an old one that is not waiting itself, and a queue
      that is empty unless the id counts as recently disconnected. */
  predicate Admissible(w: State, id: Id, loading: bool, now: int) {
    if id !in w.sessions then RecentlyDisconnected(w, id, now) ==> w.Active() < w.limit
    else loading || (w.sessions[id] !in w.queue && (w.queue == [] || RecentlyDisconnected(w, id, now)))
  }

  lemma AddKeeps(w: State, id: Id, loading: bool, now: int, order: seq<Id>)
    requires Inv(w) && Visits(order, w.disconnects, id) && Admissible(w, id, loading, now)
    ensures Inv(Add(w, id, loading, now, order))
  {
    var r := Add(w, id, loading, now, order);
    ScanFinds(w.disconnects, order, id, now);
    hide Scan, Visits;
    MapPlus(w.sessions, id, Session(id, w.next));
    assert forall k | 0 <= k < |w.queue| :: w.queue[k] in w.queue;
  }

  lemma AddBreaks(w: State, id: Id, loading: bool, now: int, order: seq<Id>)
    requires Inv(w) && Visits(order, w.disconnects, id) && !Admissible(w, id, loading, now)
    ensures !Inv(Add(w, id, loading, now, order))
  {
    var r := Add(w, id, loading, now, order);
    ScanFinds(w.disconnects, order, id, now);
    hide Scan;
    MapPlus(w.sessions, id, Session(id, w.next));
    if id in w.sessions && w.sessions[id] in w.queue {
      var k :| 0 <= k < |w.queue| && w.queue[k] == w.sessions[id];
      assert r.queue[k] == w.sessions[id];
    }
  }

  /** The rules survive an addition exactly when it is admissible; with an id never used before it always is. */
  lemma AddExact(w: State, id: Id, loading: bool, now: int, order: seq<Id>)
    requires Inv(w) && Visits(order, w.disconnects, id)
    ensures Inv(Add(w, id, loading, now, order)) <==> Admissible(w, id, loading, now)
    ensures id !in w.sessions && id !in w.disconnects ==> Inv(Add(w, id, loading, now, order))
  {
    hide Inv, Add;
    if Admissible(w, id, loading, now) {
      AddKeeps(w, id, loading, now, order);
    } else {
      AddBreaks(w, id, loading, now, order);
    }
  }

  // ---------- runs ----------

  datatype Op =
    | Join(id: Id, loading: bool, now: int, order: seq<Id>)
    | Leave(id: Id, now: int)

  /** One session comes in, or one that is there has ended. */
  function Do(w: State, op: Op): State {
    match op
    case Join(id, loading, now, order) => Add(w, id, loading, now, order)
    case Leave(id, now) => if id in w.sessions then Remove(w, id, now) else w
  }

  function Run(w: State, ops: seq<Op>): State
    decreases |ops|
  {
    if ops == [] then w else Run(Do(w, ops[0]), ops[1..])
  }

  /** Every scan of the run visits the records there are. */
  ghost predicate Visited(w: State, op: Op) {
    op.Join? ==> Visits(op.order, w.disconnects, op.id)
  }

  ghost predicate AllVisited(w: State, ops: seq<Op>)
    decreases |ops|
  {
    ops == [] || (Visited(w, ops[0]) && AllVisited(Do(w, ops[0]), ops[1..]))
  }

  predicate AllAdmissible(w: State, ops: seq<Op>)
    decreases |ops|
  {
    ops == []
    || ((ops[0].Join? ==> Admissible(w, ops[0].id, ops[0].loading, ops[0].now)) && AllAdmissible(Do(w, ops[0]), ops[1..]))
  }

  lemma {:induction false} RunAppend(w: State, a: seq<Op>, b: seq<Op>)
    ensures Run(w, a + b) == Run(Run(w, a), b)
    ensures AllVisited(w, a + b) <==> AllVisited(w, a) && AllVisited(Run(w, a), b)
    decreases |a|
  {
    hide Do, Visited;
    if a == [] {
      assert a + b == b;
    } else {
      RunAppend(Do(w, a[0]), a[1..], b);
      assert (a + b)[1..] == a[1..] + b;
    }
  }

  lemma RunSnoc(w: State, ops: seq<Op>, op: Op)
    ensures Run(w, ops + [op]) == Do(Run(w, ops), op)
    ensures AllVisited(w, ops + [op]) <==> AllVisited(w, ops) && Visited(Run(w, ops), op)
  {
    hide Do, Visited;
    RunAppend(w, ops, [op]);
    assert [op][1..] == [];
  }

  /** Some order in which the records can be visited. */
  ghost function Listed(d: map<Id, int>): (order: seq<Id>)
    ensures (forall k <- order :: k in d) && forall k <- d :: k in order
    decreases |d|
  {
    if d == map[] then []
    else
      var k :| k in d;
      assert |d - {k}| == |d| - 1 by {
        assert (d - {k}).Keys == d.Keys - {k};
        assert |d| == |d.Keys| && |d - {k}| == |(d - {k}).Keys|;
      }
      Listed(d - {k}) + [k]
  }

  /** The rules hold over every run of admissible additions and of removals. */
  lemma {:induction false} RunKeeps(w: State, ops: seq<Op>)
    requires Inv(w) && AllVisited(w, ops) && AllAdmissible(w, ops)
    ensures Inv(Run(w, ops))
    decreases |ops|
  {
    hide Inv, Add, Remove, Admissible;
    if ops != [] {
      match ops[0] {
        case Join(id, loading, now, order) => AddKeeps(w, id, loading, now, order);
        case Leave(id, now) => if id in w.sessions { RemoveKeeps(w, id, now); }
      }
      RunKeeps(Do(w, ops[0]), ops[1..]);
    }
  }

  // ---------- what becomes of sessions ----------

  /** A session with an id that is not in use is there afterwards. It waits, as the last, exactly when no place is free and
      its id has no recent record; otherwise it is initialized. Nothing else is announced, and nobody else moves. */
  lemma ArrivalWaits(w: State, id: Id, loading: bool, now: int, order: seq<Id>)
    requires Inv(w) && Visits(order, w.disconnects, id) && id !in w.sessions
    ensures var r, s := Add(w, id, loading, now, order), Session(id, w.next);
      && r.sessions == w.sessions[id := s] && r.limit == w.limit && r.next == w.next + 1
      && if w.Active() >= w.limit && !RecentlyDisconnected(w, id, now)
         then r.queue == w.queue + [s] && r.events == w.events
         else r.queue == w.queue && r.events == w.events + [Initialized(s)]
  {
    ScanFinds(w.disconnects, order, id, now);
    MapPlus(w.sessions, id, Session(id, w.next));
    hide Scan, QueueOk;
    assert w.events + [] == w.events;
  }

  /** A session that takes the id of another one: while that is loading the newcomer is turned away and nothing changes;
      otherwise it takes its place among the sessions, the old one is told twice, and the newcomer waits or is
      initialized. */
  lemma ReturnKicks(w: State, id: Id, loading: bool, now: int, order: seq<Id>)
    requires Visits(order, w.disconnects, id) && id in w.sessions
    ensures var r, s, before := Add(w, id, loading, now, order), Session(id, w.next), w.sessions[id];
      if loading then r == w.(next := w.next + 1, events := w.events + [Kicked(s)])
      else
        && r.sessions == w.sessions[id := s]
        && if w.limit > 0 && |w.sessions| - 1 >= w.limit && !RecentlyDisconnected(w, id, now)
           then r.queue == w.queue + [s] && r.events == w.events + [Kicked(before), Kicked(before)]
           else r.queue == w.queue && r.events == w.events + [Kicked(before), Kicked(before)] + [Initialized(s)]
  {
    ScanFinds(w.disconnects, order, id, now);
    MapPlus(w.sessions, id, Session(id, w.next));
    hide Scan;
  }

  /** Every session of the world waits or has been initialized. */
  ghost predicate Placed(w: State) {
    forall id <- w.sessions :: w.sessions[id] in w.queue || Initialized(w.sessions[id]) in w.events
  }

  lemma AddPlaces(w: State, id: Id, loading: bool, now: int, order: seq<Id>)
    requires Visits(order, w.disconnects, id) && Placed(w)
    ensures Placed(Add(w, id, loading, now, order))
  {
    var s, r := Session(id, w.next), Add(w, id, loading, now, order);
    hide Scan, Visits;
    assert forall q <- w.queue :: q in r.queue;
    assert forall e <- w.events :: e in r.events;
    if !(id in w.sessions && loading) {
      assert s in r.queue || Initialized(s) in r.events;
    }
  }

  lemma RemovePlaces(w: State, id: Id, now: int)
    requires Inv(w) && id in w.sessions && Placed(w)
    ensures Placed(Remove(w, id, now))
  {
    NobodyLost(w, id, now);
    RemoveKeeps(w, id, now);
    var r := Remove(w, id, now);
    OneEach(w, id);
    hide Inv, Remove;
    assert forall e <- News(w, r) :: e in r.events;
    forall k | k in r.sessions ensures r.sessions[k] in r.queue || Initialized(r.sessions[k]) in r.events {
      assert k != id && w.sessions[k] != w.sessions[id];
    }
  }

  lemma OneEach(w: State, id: Id)
    requires Inv(w) && id in w.sessions
    ensures forall k <- w.sessions :: k != id ==> w.sessions[k] != w.sessions[id]
  {
  }

  /** The ids that are in use after a run, from the operations alone: those that came in and have not ended since. */
  function Present(ids: set<Id>, ops: seq<Op>): set<Id>
    decreases |ops|
  {
    if ops == [] then ids
    else Present(match ops[0] case Join(id, _, _, _) => ids + {id} case Leave(id, _) => ids - {id}, ops[1..])
  }

  lemma DoPresent(w: State, op: Op)
    ensures Do(w, op).sessions.Keys == match op case Join(id, _, _, _) => w.sessions.Keys + {id} case Leave(id, _) => w.sessions.Keys - {id}
  {
    if op.Leave? && op.id in w.sessions {
      RemoveNext(w, op.id, op.now);
    }
    hide Scan, Remove;
  }

  /** Nobody is forgotten: over every run of admissible additions and of removals the sessions of the world are those that
      came in and have not ended, and each of them waits or has been initialized. */
  lemma {:induction false} NobodyForgotten(w: State, ops: seq<Op>)
    requires Inv(w) && Placed(w) && AllVisited(w, ops) && AllAdmissible(w, ops)
    ensures Placed(Run(w, ops)) && Run(w, ops).sessions.Keys == Present(w.sessions.Keys, ops)
    decreases |ops|
  {
    hide Inv, Add, Remove, Admissible, Placed;
    if ops != [] {
      DoPresent(w, ops[0]);
      match ops[0] {
        case Join(id, loading, now, order) =>
          AddKeeps(w, id, loading, now, order);
          AddPlaces(w, id, loading, now, order);
        case Leave(id, now) =>
          if id in w.sessions {
            RemoveKeeps(w, id, now);
            RemovePlaces(w, id, now);
          }
      }
      NobodyForgotten(Do(w, ops[0]), ops[1..]);
    }
  }

  // ---------- what becomes of records ----------

  /** In whatever order the records are visited, the scan for an id erases its record exactly when that lies at least 1000
      seconds in the future, and otherwise keeps it and reports it. */
  lemma RecordLapses(d: map<Id, int>, order: seq<Id>, id: Id, now: int)
    requires id in d && Visits(order, d, id)
    ensures var (left, found) := Scan(d, order, id, now);
      if d[id] >= now + 1000 then id !in left && !found else id in left && left[id] == d[id] && found
  {
    ScanFinds(d, order, id, now);
    hide Scan;
  }

  /** The clock does not run backwards. */
  predicate Clocked(ops: seq<Op>, from: int)
    decreases |ops|
  {
    ops == [] || (from <= ops[0].now && Clocked(ops[1..], ops[0].now))
  }

  /** The id is on record, and no session with it has been queued since the counter stood at n. */
  ghost predicate Passes(w: State, id: Id, n: nat, now: int) {
    n <= w.next && RecentlyDisconnected(w, id, now) && forall q <- w.queue :: q.id == id ==> q.n < n
  }

  lemma RemovePasses(w: State, id: Id, n: nat, gone: Id, now: int)
    requires Passes(w, id, n, now) && gone in w.sessions
    ensures Passes(Remove(w, gone, now), id, n, now)
  {
    var s := w.sessions[gone];
    var w1 := RemoveQueued(w, s).0;
    QueueShrinks(w, s);
    hide RemoveQueued;
    var w2 := if RemoveQueued(w, s).1 then w1 else w1.(disconnects := w1.disconnects[gone := now]);
    QueueShrinks(w2, s);
  }

  lemma QueueShrinks(w: State, s: Session)
    ensures var r := RemoveQueued(w, s).0;
      && (forall q <- r.queue :: q in w.queue)
      && r.next == w.next && r.disconnects == w.disconnects && r.sessions == w.sessions && r.limit == w.limit
  {
    hide Notices;
  }

  lemma AddPasses(w: State, id: Id, n: nat, op: Op)
    requires op.Join? && Visited(w, op) && Passes(w, id, n, op.now)
    ensures Passes(Do(w, op), id, n, op.now)
  {
    ScanFinds(w.disconnects, op.order, op.id, op.now);
    hide Scan;
  }

  /** With a clock that does not run backwards, an id that was once recorded is never queued again, whatever the load:
      each session in the queue with that id was there before. */
  lemma {:induction false} RecordedNeverQueues(w: State, ops: seq<Op>, id: Id, from: int)
    requires id in w.disconnects && w.disconnects[id] - from < 1000 && Clocked(ops, from) && AllVisited(w, ops)
    requires forall q <- w.queue :: q.n < w.next
    ensures forall q <- Run(w, ops).queue :: q.id == id ==> q.n < w.next
  {
    PassesOn(w, ops, id, w.next, from);
  }

  lemma {:induction false} PassesOn(w: State, ops: seq<Op>, id: Id, n: nat, from: int)
    requires Passes(w, id, n, from) && Clocked(ops, from) && AllVisited(w, ops)
    ensures exists t :: Passes(Run(w, ops), id, n, t)
    decreases |ops|
  {
    hide Add, Remove, Visited;
    if ops == [] {
      assert Passes(Run(w, ops), id, n, from);
    } else {
      var t := ops[0].now;
      assert Passes(w, id, n, t);
      if ops[0].Join? {
        AddPasses(w, id, n, ops[0]);
      } else if ops[0].id in w.sessions {
        RemovePasses(w, id, n, ops[0].id, t);
      }
      hide Passes;
      PassesOn(Do(w, ops[0]), ops[1..], id, n, t);
      assert Run(w, ops) == Run(Do(w, ops[0]), ops[1..]);
    }
  }

  // ---------- the order of admission ----------

  /** Sessions were initialized in the order in which they were added, and all who wait come after them. */
  ghost predicate InOrder(w: State) {
    && (forall i, j | 0 <= i < j < |w.events| && w.events[i].Initialized? && w.events[j].Initialized? ::
          w.events[i].s.n < w.events[j].s.n)
    && (forall i | 0 <= i < |w.events| && w.events[i].Initialized? ::
          w.events[i].s.n < w.next && forall q <- w.queue :: w.events[i].s.n < q.n)
  }

  predicate NewId(w: State, op: Op) {
    op.Join? ==> op.id !in w.sessions && op.id !in w.disconnects
  }

  predicate AllNewIds(w: State, ops: seq<Op>)
    decreases |ops|
  {
    ops == [] || (NewId(w, ops[0]) && AllNewIds(Do(w, ops[0]), ops[1..]))
  }

  lemma JoinInOrder(w: State, op: Op)
    requires Inv(w) && InOrder(w) && op.Join? && NewId(w, op) && Visited(w, op)
    ensures InOrder(Do(w, op))
  {
    ScanFinds(w.disconnects, op.order, op.id, op.now);
    MapPlus(w.sessions, op.id, Session(op.id, w.next));
    hide Scan;
  }

  lemma QuietInOrder(w: State, r: State, news: seq<Event>)
    requires InOrder(w) && r.events == w.events + news && r.next == w.next
    requires forall q <- r.queue :: q in w.queue
    requires forall e <- news :: !e.Initialized?
    ensures InOrder(r)
  {
  }

  lemma FirstInOrder(w: State, r: State, first: Session, notices: seq<Event>)
    requires InOrder(w) && first in w.queue && first.n < w.next && r.next == w.next
    requires r.events == w.events + [Initialized(first)] + notices
    requires forall q <- r.queue :: q in w.queue && first.n < q.n
    requires forall e <- notices :: !e.Initialized?
    ensures InOrder(r)
  {
    var m := w.(events := w.events + [Initialized(first)], queue := r.queue);
    assert InOrder(m);
    QuietInOrder(m, r, notices);
  }

  lemma NoticesQuiet(q: seq<Session>, from: nat)
    requires from <= |q|
    ensures forall e <- Notices(q, from) :: !e.Initialized?
  {
  }

  lemma LeaveInOrder(w: State, id: Id, now: int)
    requires Inv(w) && InOrder(w) && id in w.sessions
    ensures InOrder(Remove(w, id, now))
  {
    if w.sessions[id] in w.queue {
      RemoveWaiting(w, id, now);
      var i := IndexOf(w.queue, w.sessions[id]);
      var q := Without(w.queue, i);
      NoticesQuiet(q, i);
      LeavesOnly(w.queue, i);
      hide Remove, Notices, InOrder, Inv, IndexOf;
      assert forall x <- q :: x in w.queue;
      QuietInOrder(w, Remove(w, id, now), Notices(q, i));
    } else {
      RemoveActive(w, id, now);
      hide Remove, InOrder, LimitOk;
      if w.queue == [] {
        hide Inv;
        QuietInOrder(w, Remove(w, id, now), []);
      } else {
        NoticesQuiet(w.queue[1..], 0);
        hide Notices;
        assert forall k | 0 <= k < |w.queue[1..]| :: w.queue[1..][k] == w.queue[k + 1];
        FirstInOrder(w, Remove(w, id, now), w.queue[0], Notices(w.queue[1..], 0));
      }
    }
  }

  lemma RemoveNext(w: State, id: Id, now: int)
    requires id in w.sessions
    ensures Remove(w, id, now).next == w.next && Remove(w, id, now).limit == w.limit
    ensures Remove(w, id, now).sessions == w.sessions - {id}
  {
    QueueShrinks(w, w.sessions[id]);
    var (w1, found) := RemoveQueued(w, w.sessions[id]);
    hide RemoveQueued;
    QueueShrinks(if found then w1 else w1.(disconnects := w1.disconnects[id := now]), w.sessions[id]);
  }

  /** First come, first served over every run with new ids: the sessions are initialized in the order in which they were
      added, whether they had to wait or not. */
  lemma {:induction false} ServedInOrder(w: State, ops: seq<Op>)
    requires Inv(w) && InOrder(w) && AllVisited(w, ops) && AllNewIds(w, ops)
    ensures Inv(Run(w, ops)) && InOrder(Run(w, ops))
    decreases |ops|
  {
    hide Inv, InOrder, Add, Remove;
    if ops != [] {
      match ops[0] {
        case Join(id, loading, now, order) => JoinInOrder(w, ops[0]); AddExact(w, id, loading, now, order);
        case Leave(id, now) => if id in w.sessions { LeaveInOrder(w, id, now); RemoveKeeps(w, id, now); }
      }
      ServedInOrder(Do(w, ops[0]), ops[1..]);
    }
  }

  /** In particular from an empty world. */
  lemma ServedFromStart(limit: nat, ops: seq<Op>)
    requires limit > 0 && AllVisited(Start(limit), ops) && AllNewIds(Start(limit), ops)
    ensures var w := Run(Start(limit), ops);
      forall i, j | 0 <= i < j < |w.events| && w.events[i].Initialized? && w.events[j].Initialized? ::
        w.events[i].s.n < w.events[j].s.n
  {
    StartOk(limit);
    assert InOrder(Start(limit));
    ServedInOrder(Start(limit), ops);
    hide Run, AllVisited, AllNewIds;
  }

  // ---------- runs in which the rules fail ----------

  lemma RunStep(w: State, op: Op, ops: seq<Op>)
    ensures Run(w, [op] + ops) == Run(Do(w, op), ops)
    ensures AllVisited(w, [op] + ops) <==> Visited(w, op) && AllVisited(Do(w, op), ops)
  {
    assert ([op] + ops)[1..] == ops;
    hide Do, Visited;
  }

  lemma RunSteps(w: State, a: Op, b: Op, c: Op)
    ensures Run(w, [a, b, c]) == Do(Do(Do(w, a), b), c)
    ensures AllVisited(w, [a, b, c]) <==> Visited(w, a) && Visited(Do(w, a), b) && Visited(Do(Do(w, a), b), c)
  {
    hide Do, Visited;
    assert [a, b, c] == [a] + ([b] + ([c] + []));
    RunStep(w, a, [b] + ([c] + []));
    RunStep(Do(w, a), b, [c] + []);
    RunStep(Do(Do(w, a), b), c, []);
  }

  function OnePlaying(): State {
    State(map[1 := Session(1, 0)], [], map[], 1, 1, [Initialized(Session(1, 0))])
  }

  function OneWaiting(): State {
    State(map[1 := Session(1, 0), 2 := Session(2, 1)], [Session(2, 1)], map[], 1, 2, [Initialized(Session(1, 0))])
  }

  lemma FirstPlays()
    ensures Do(Start(1), Join(1, false, 0, [])) == OnePlaying()
  {
  }

  lemma SecondWaits()
    ensures Do(OnePlaying(), Join(2, false, 0, [])) == OneWaiting()
  {
    assert |map[1 := Session(1, 0), 2 := Session(2, 1)]| == 2 by {
      MapPlus(map[1 := Session(1, 0)], 2, Session(2, 1));
    }
    assert map[1 := Session(1, 0)][2 := Session(2, 1)] == map[1 := Session(1, 0), 2 := Session(2, 1)];
  }

  function OneRecorded(): State {
    State(map[], [], map[1 := 0], 1, 1, [Initialized(Session(1, 0))])
  }

  function OtherPlaying(): State {
    State(map[2 := Session(2, 1)], [], map[1 := 0], 1, 2, [Initialized(Session(1, 0)), Initialized(Session(2, 1))])
  }

  lemma OnePlayingOk()
    ensures Inv(OnePlaying())
  {
    assert |map[1 := Session(1, 0)]| == 1;
  }

  lemma FirstLeaves()
    ensures Do(OnePlaying(), Leave(1, 0)) == OneRecorded()
  {
    hide Remove, Inv, Notices;
    OnePlayingOk();
    RemoveActive(OnePlaying(), 1, 0);
    assert map[1 := Session(1, 0)] - {1} == map[];
    assert map[][1 := 0] == map[1 := 0];
  }

  lemma OtherPlays()
    ensures Do(OneRecorded(), Join(2, false, 0, [1])) == OtherPlaying()
  {
    assert map[][2 := Session(2, 1)] == map[2 := Session(2, 1)];
  }

  lemma OtherFillsWorld()
    ensures Run(Start(1), [Join(1, false, 0, []), Leave(1, 0), Join(2, false, 0, [1])]) == OtherPlaying()
    ensures AllVisited(Start(1), [Join(1, false, 0, []), Leave(1, 0), Join(2, false, 0, [1])])
  {
    FirstPlays();
    FirstLeaves();
    OtherPlays();
    RunSteps(Start(1), Join(1, false, 0, []), Leave(1, 0), Join(2, false, 0, [1]));
    hide Run, Do, AllVisited;
  }

  lemma ReturnIsNotQueued()
    ensures Inv(OtherPlaying()) && Visits([1], OtherPlaying().disconnects, 1)
    ensures var r := Add(OtherPlaying(), 1, false, 0, [1]); r.queue == [] && |r.sessions| == 2
  {
    MapPlus(OtherPlaying().sessions, 1, Session(1, 2));
    assert Scan(OtherPlaying().disconnects, [1], 1, 0).1;
    hide Scan;
  }

  /** An id comes back while the world is full: nobody waits, and two play where one may. */
  lemma ReturningIdPassesLimit()
    ensures var ops := [Join(1, false, 0, []), Leave(1, 0), Join(2, false, 0, [1])];
      var w := Run(Start(1), ops);
      && AllVisited(Start(1), ops) && Inv(w) && Visits([1], w.disconnects, 1)
      && var r := Add(w, 1, false, 0, [1]);
      !Inv(r) && r.queue == [] && |r.sessions| == 2
  {
    hide Run, AllVisited, Inv, Add, Visits;
    OtherFillsWorld();
    ReturnIsNotQueued();
    assert !Admissible(OtherPlaying(), 1, false, 0) by {
      assert |map[2 := Session(2, 1)]| == 1;
    }
    AddExact(OtherPlaying(), 1, false, 0, [1]);
  }

  /** A session replaces one that waits: the one that was replaced stays in the queue. */
  lemma ReplacedStaysQueued()
    ensures var ops := [Join(1, false, 0, []), Join(2, false, 0, []), Join(2, false, 0, [])];
      var w := Run(Start(1), ops);
      AllVisited(Start(1), ops) && !Inv(w) && w.queue == [Session(2, 1), Session(2, 2)]
  {
    FirstPlays();
    SecondWaits();
    RunSteps(Start(1), Join(1, false, 0, []), Join(2, false, 0, []), Join(2, false, 0, []));
    MapPlus(OneWaiting().sessions, 2, Session(2, 2));
  }

  /** A session replaces the one that plays: both that are there wait, and nobody plays. */
  lemma ReplacedFreesPlace()
    ensures var ops := [Join(1, false, 0, []), Join(2, false, 0, []), Join(1, false, 0, [])];
      var w := Run(Start(1), ops);
      AllVisited(Start(1), ops) && !Inv(w) && w.queue == [Session(2, 1), Session(1, 2)] && w.Active() == 0
  {
    FirstPlays();
    SecondWaits();
    RunSteps(Start(1), Join(1, false, 0, []), Join(2, false, 0, []), Join(1, false, 0, []));
    MapPlus(OneWaiting().sessions, 1, Session(1, 2));
    MapPlus(map[1 := Session(1, 0)], 2, Session(2, 1));
    assert OneWaiting().sessions == map[1 := Session(1, 0)][2 := Session(2, 1)];
  }

  // ---------- the object ----------

  class World {
    var sessions: map<Id, Session>
    var queue: seq<Session>
    var disconnects: map<Id, int>
    var limit: nat
    var next: nat
    var events: seq<Event>  // what the sessions were told

    ghost function Value(): State
      reads this
    {
      State(sessions, queue, disconnects, limit, next, events)
    }

    constructor (limit: nat)
      ensures Value() == Start(limit)
    {
      sessions, queue, disconnects, this.limit, next, events := map[], [], map[], limit, 0, [];
    }

    /** Tells everyone from index i on; `position` counts along. */
    method SendPositions(i: nat, position: nat)
      requires i <= |queue| && position == i + 1
      modifies this`events
      ensures events == old(events) + Notices(queue, i)
    {
      var k, p := i, position;
      assert events == events + Notices(queue, i)[..0];
      while k < |queue|
        invariant i <= k <= |queue| && p == k + 1
        invariant events == old(events) + Notices(queue, i)[..k - i]
      {
        assert Notices(queue, i)[..k + 1 - i] == Notices(queue, i)[..k - i] + [Position(queue[k], p)];
        events := events + [Position(queue[k], p)];
        k, p := k + 1, p + 1;
      }
    }

    /** The search of the queue; it stops behind the entry it erases. */
    method EraseQueued(s: Session) returns (i: nat, found: bool)
      modifies this`queue
      ensures i == IndexOf(old(queue), s) && found == (i < |old(queue)|)
      ensures queue == Without(old(queue), i)
    {
      i, found := 0, false;
      while i < |queue|
        invariant i <= |queue| && queue == old(queue)
        invariant IndexOf(queue, s) == i + IndexOf(queue[i..], s)
      {
        if queue[i] == s {
          queue := queue[..i] + queue[i + 1..];
          found := true;
          return;
        }
        i := i + 1;
      }
    }

    function GetActiveSessionCount(): (n: nat)
      reads this
      ensures n == Value().Active()
    {
      if |queue| <= |sessions| then |sessions| - |queue| else Wrap(|sessions| - |queue|)
    }

    method RemoveQueuedPlayer(s: Session) returns (found: bool)
      modifies this`queue, this`events
      ensures Value() == RemoveQueued(old(Value()), s).0 && found == RemoveQueued(old(Value()), s).1
    {
      hide IndexOf, Notices;
      var count := GetActiveSessionCount();
      var i;
      i, found := EraseQueued(s);
      var position := i + 1;
      if !found && count != 0 {
        count := count - 1;
      }
      if (limit == 0 || count < limit) && queue != [] {
        events := events + [Initialized(queue[0])];
        queue := queue[1..];
        i, position := 0, 1;
      }
      SendPositions(i, position);
    }

    /** The session that ended is taken out of the queue, twice, and out of the world. */
    method RemoveEnded(id: Id, now: int)
      requires id in sessions
      modifies this
      ensures Value() == Remove(old(Value()), id, now)
    {
      hide RemoveQueued;
      var s := sessions[id];
      var found := RemoveQueuedPlayer(s);
      if !found {
        disconnects := disconnects[id := now];
      }
      found := RemoveQueuedPlayer(s);
      sessions := sessions - {id};
    }

    /** The records are visited in an order the map decides. */
    method HasRecentlyDisconnected(id: Id, now: int) returns (found: bool, ghost order: seq<Id>)
      modifies this`disconnects
      ensures Visits(order, old(disconnects), id)
      ensures (disconnects, found) == Scan(old(disconnects), order, id, now)
    {
      var todo := disconnects.Keys;
      found, order := false, [];
      while todo != {}
        invariant todo <= disconnects.Keys <= old(disconnects).Keys
        invariant forall k <- order :: k in old(disconnects) && k !in todo
        invariant forall k <- old(disconnects) :: k in todo || k in order
        invariant Scan(old(disconnects), order, id, now) == (disconnects, false)
        decreases |todo|
      {
        var k :| k in todo;
        todo := todo - {k};
        ScanSnoc(old(disconnects), order, k, id, now);
        assert [k][1..] == [];
        order := order + [k];
        if disconnects[k] - now < 1000 {
          if k == id {
            return true, order;
          }
        } else {
          disconnects := disconnects - {k};
        }
      }
    }

    /** A session that was just added is queued or initialized. */
    method PlaceSession(s: Session, now: int) returns (ghost order: seq<Id>)
      modifies this`disconnects, this`queue, this`events
      ensures Visits(order, old(disconnects), s.id) && Value() == Place(old(Value()), s, now, order)
    {
      hide Scan;
      order := Listed(disconnects);
      if limit > 0 && |sessions| - 1 >= limit {
        var recent;
        recent, order := HasRecentlyDisconnected(s.id, now);
        if !recent {
          queue := queue + [s];
          return;
        }
      }
      events := events + [Initialized(s)];
    }

    method AddSession(id: Id, loading: bool, now: int) returns (ghost order: seq<Id>)
      modifies this
      ensures Visits(order, old(disconnects), id)
      ensures Value() == Add(old(Value()), id, loading, now, order)
    {
      hide Place;
      var s := Session(id, next);
      next := next + 1;
      if id in sessions {
        if loading {
          events := events + [Kicked(s)];
          order := Listed(disconnects);
          return;
        }
        events := events + [Kicked(sessions[id])];
        events := events + [Kicked(sessions[id])];
        assert events == old(events) + [Kicked(sessions[id]), Kicked(sessions[id])];
      } else {
        assert events == old(events) + [];
      }
      sessions := sessions[id := s];
      order := PlaceSession(s, now);
    }

    /** The sessions waiting to be added. */
    method AddPending(added: seq<(Id, bool)>, now: int) returns (ghost ops: seq<Op>)
      modifies this
      ensures |ops| == |added|
      ensures forall i | 0 <= i < |ops| ::
        ops[i].Join? && (ops[i].id, ops[i].loading, ops[i].now) == (added[i].0, added[i].1, now)
      ensures AllVisited(old(Value()), ops) && Value() == Run(old(Value()), ops)
    {
      hide Add, Visits;
      ops := [];
      var i := 0;
      while i < |added|
        invariant 0 <= i <= |added| && |ops| == i
        invariant forall k | 0 <= k < i ::
          ops[k].Join? && (ops[k].id, ops[k].loading, ops[k].now) == (added[k].0, added[k].1, now)
        invariant AllVisited(old(Value()), ops) && Value() == Run(old(Value()), ops)
      {
        ghost var w := Value();
        ghost var order := AddSession(added[i].0, added[i].1, now);
        ghost var op := Join(added[i].0, added[i].1, now, order);
        RunSnoc(old(Value()), ops, op);
        ops := ops + [op];
        i := i + 1;
      }
    }

    /** The sessions that have ended go, in whatever order all are visited. */
    method RemoveAllEnded(ended: Session -> bool, now: int) returns (ghost ops: seq<Op>)
      modifies this
      ensures forall op <- ops :: op.Leave? && op.now == now
      ensures AllVisited(old(Value()), ops) && Value() == Run(old(Value()), ops)
      ensures forall id :: id in sessions <==> id in old(sessions) && !ended(old(sessions)[id])
      ensures forall id :: id in sessions ==> sessions[id] == old(sessions)[id]
    {
      hide Remove, Visits;
      ops := [];
      var todo := sessions.Keys;
      while todo != {}
        invariant todo <= sessions.Keys
        invariant forall op <- ops :: op.Leave? && op.now == now
        invariant AllVisited(old(Value()), ops) && Value() == Run(old(Value()), ops)
        invariant forall id :: id in sessions <==> id in old(sessions) && (id in todo || !ended(old(sessions)[id]))
        invariant forall id :: id in sessions ==> sessions[id] == old(sessions)[id]
      {
        var id :| id in todo;
        todo := todo - {id};
        if ended(sessions[id]) {
          ghost var w := Value();
          RemoveNext(w, id, now);
          RunSnoc(old(Value()), ops, Leave(id, now));
          RemoveEnded(id, now);
          ops := ops + [Leave(id, now)];
        }
      }
    }

    /** One update of the world: whatever ids come in, it is a run of the additions, in order, and of the removals. */
    method UpdateSessions(added: seq<(Id, bool)>, ended: Session -> bool, now: int)
      returns (ghost joins: seq<Op>, ghost leaves: seq<Op>)
      modifies this
      ensures |joins| == |added|
      ensures forall i | 0 <= i < |joins| ::
        joins[i].Join? && (joins[i].id, joins[i].loading, joins[i].now) == (added[i].0, added[i].1, now)
      ensures forall op <- leaves :: op.Leave? && op.now == now
      ensures AllVisited(old(Value()), joins + leaves) && Value() == Run(old(Value()), joins + leaves)
      ensures var all := Run(old(Value()), joins).sessions;
        && (forall id :: id in sessions <==> id in all && !ended(all[id]))
        && (forall id :: id in sessions ==> sessions[id] == all[id])
    {
      hide Run, AllVisited;
      joins := AddPending(added, now);
      leaves := RemoveAllEnded(ended, now);
      RunAppend(old(Value()), joins, leaves);
    }
  }
}
