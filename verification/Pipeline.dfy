/** The handler pipeline of netty/pipeline.go: a doubly linked list between two sentinels, proved to
    be the sequence of its handlers, and the event walks of netty/context.go over it. */
module Pipeline {

  /** The interfaces a handler can implement; `id` tells handlers apart. */
  datatype Kind = Active | Inbound | Outbound | Exception | Inactive | Event

  datatype Handler = Handler(id: int, kinds: set<Kind>)

  const Head := Handler(-1, {Active, Inbound, Outbound, Exception, Inactive})
  const Tail := Handler(-2, {Outbound, Exception, Inactive})

  /** checkHandler accepts a handler that implements at least one interface, and panics otherwise. */
  predicate Recognized(h: Handler) {
    h.kinds != {}
  }

  class Context {
    const handler: Handler
    var prev: Context?
    var next: Context?

    constructor (h: Handler, p: Context?, n: Context?)
      ensures handler == h && prev == p && next == n
    {
      handler := h;
      prev := p;
      next := n;
    }
  }

  /** The handlers a list of contexts carries. */
  function Carried(nodes: seq<Context>): (hs: seq<Handler>)
    ensures |hs| == |nodes|
    ensures forall i :: 0 <= i < |nodes| ==> hs[i] == nodes[i].handler
  {
    seq(|nodes|, i requires 0 <= i < |nodes| => nodes[i].handler)
  }

  /** The context at an index, or null beyond either end. */
  function At(nodes: seq<Context>, i: int): Context? {
    if 0 <= i < |nodes| then nodes[i] else null
  }

  /** Every next pointer, but possibly that of one index, leads to the successor. */
  ghost predicate Forward(nodes: seq<Context>, except: int)
    reads nodes
  {
    forall i {:trigger nodes[i].next} :: 0 <= i < |nodes| && i != except ==> nodes[i].next == At(nodes, i + 1)
  }

  /** Every prev pointer, but possibly that of one index, leads to the predecessor. */
  ghost predicate Backward(nodes: seq<Context>, except: int)
    reads nodes
  {
    forall i {:trigger nodes[i].prev} :: 0 <= i < |nodes| && i != except ==> nodes[i].prev == At(nodes, i - 1)
  }

  ghost predicate Apart(nodes: seq<Context>) {
    forall i, j :: 0 <= i < j < |nodes| ==> nodes[i] != nodes[j]
  }

  ghost predicate Linked(nodes: seq<Context>)
    reads nodes
  {
    Forward(nodes, -1) && Backward(nodes, -1) && Apart(nodes)
  }

  function Insert<T>(s: seq<T>, at: nat, x: T): seq<T>
    requires at <= |s|
  {
    s[..at] + [x] + s[at..]
  }

  function InsertAll<T>(s: seq<T>, at: nat, xs: seq<T>): seq<T>
    requires at <= |s|
  {
    s[..at] + xs + s[at..]
  }

  lemma StartInsert<T>(s: seq<T>, at: nat)
    requires at <= |s|
    ensures InsertAll(s, at, []) == s
  {
  }

  lemma InsertBefore<T>(s: seq<T>, at: nat, xs: seq<T>, x: T)
    requires at <= |s|
    ensures |InsertAll(s, at, xs)| == |s| + |xs|
    ensures Insert(InsertAll(s, at, xs), at, x) == InsertAll(s, at, [x] + xs)
  {
  }

  lemma InsertAfter<T>(s: seq<T>, at: nat, xs: seq<T>, x: T)
    requires at <= |s|
    ensures |InsertAll(s, at, xs)| == |s| + |xs|
    ensures Insert(InsertAll(s, at, xs), at + |xs|, x) == InsertAll(s, at, xs + [x])
  {
  }

  function Reversed<T>(s: seq<T>): (r: seq<T>)
    ensures |r| == |s|
    ensures forall i :: 0 <= i < |s| ==> r[i] == s[|s| - 1 - i]
  {
    if s == [] then [] else Reversed(s[1..]) + [s[0]]
  }

  lemma {:induction false} ReversedSnoc<T>(s: seq<T>, x: T)
    ensures Reversed(s + [x]) == [x] + Reversed(s)
  {
    if s != [] {
      ReversedSnoc(s[1..], x);
      assert (s + [x])[1..] == s[1..] + [x];
    }
  }

  /** How many handlers come before the first one checkHandler rejects. */
  function Accepted(hs: seq<Handler>): (n: nat)
    ensures n <= |hs|
    ensures forall i :: 0 <= i < n ==> Recognized(hs[i])
    ensures n < |hs| ==> !Recognized(hs[n])
  {
    if hs == [] || !Recognized(hs[0]) then 0 else 1 + Accepted(hs[1..])
  }

  /** Where AddHandler puts its handlers: after `position`, before the tail for -1 and for the last
      position, and after the head for any other negative position. */
  function Slot(position: int, size: nat): (at: nat)
    requires size >= 2 && position < size
    ensures 1 <= at < size
  {
    if position == -1 || position == size - 1 then size - 1
    else if position < 0 then 1 else position + 1
  }

  // ----- what a walk visits, on the plain sequence -----

  /** The handlers of one kind, in order. */
  function Select(hs: seq<Handler>, kind: Kind): (r: seq<Handler>)
    ensures forall h :: h in r <==> h in hs && kind in h.kinds
  {
    if hs == [] then []
    else if kind in hs[0].kinds then [hs[0]] + Select(hs[1..], kind)
    else Select(hs[1..], kind)
  }

  /** An event passes from handler to handler until one does not forward it. */
  function Reached(hs: seq<Handler>, forwards: Handler -> bool): (r: seq<Handler>)
    ensures r <= hs && (hs != [] ==> r != [])
    ensures forall i :: 0 <= i < |r| - 1 ==> forwards(r[i])
    ensures |r| < |hs| ==> !forwards(r[|r| - 1])
  {
    if hs == [] then []
    else if forwards(hs[0]) then [hs[0]] + Reached(hs[1..], forwards)
    else [hs[0]]
  }

  /** `at` lists, in ascending order, the positions of all handlers of the kind, and r those handlers. */
  ghost predicate Positions(hs: seq<Handler>, kind: Kind, r: seq<Handler>, at: seq<nat>) {
    && |at| == |r|
    && (forall i :: 0 <= i < |at| ==> at[i] < |hs| && hs[at[i]] == r[i])
    && (forall i, j :: 0 <= i < j < |at| ==> at[i] < at[j])
    && (forall k :: 0 <= k < |hs| && kind in hs[k].kinds ==> k in at)
  }

  lemma PositionsSnoc(hs: seq<Handler>, kind: Kind, h: Handler, r: seq<Handler>, at: seq<nat>)
    requires Positions(hs, kind, r, at)
    ensures kind in h.kinds ==> Positions(hs + [h], kind, r + [h], at + [|hs|])
    ensures kind !in h.kinds ==> Positions(hs + [h], kind, r, at)
  {
    var at' := at + [|hs|];
    assert at'[|at|] == |hs|;
    forall k | 0 <= k < |hs + [h]| && kind in (hs + [h])[k].kinds
      ensures k in at'
    {
      if k < |hs| {
        assert kind in hs[k].kinds;
      }
    }
  }

  /** Select keeps the order and leaves none out. */
  lemma {:induction false} SelectAscending(hs: seq<Handler>, kind: Kind) returns (at: seq<nat>)
    ensures Positions(hs, kind, Select(hs, kind), at)
  {
    at := [];
    if hs != [] {
      var n := |hs| - 1;
      at := SelectAscending(hs[..n], kind);
      SelectSnoc(hs, kind);
      hide Select, Positions;
      assert hs[..n] + [hs[n]] == hs;
      PositionsSnoc(hs[..n], kind, hs[n], Select(hs[..n], kind), at);
      if kind in hs[n].kinds {
        at := at + [n];
      }
    }
  }

  lemma SelectSnoc(hs: seq<Handler>, kind: Kind)
    requires hs != []
    ensures var n := |hs| - 1;
            Select(hs, kind) == if kind in hs[n].kinds then Select(hs[..n], kind) + [hs[n]] else Select(hs[..n], kind)
  {
    var n := |hs| - 1;
    assert hs == hs[..n] + [hs[n]] && [hs[n]][1..] == [];
    SelectConcat(hs[..n], [hs[n]], kind);
  }

  /** The two ends of a pipeline under Select. */
  lemma SelectEnds(hs: seq<Handler>, kind: Kind)
    requires |hs| >= 2
    ensures var n := |hs| - 1;
            var inner := Select(hs[1..n], kind);
            && Select(hs[..n], kind) == (if kind in hs[0].kinds then [hs[0]] + inner else inner)
            && Select(hs[1..], kind) == (if kind in hs[n].kinds then inner + [hs[n]] else inner)
  {
    var n := |hs| - 1;
    SelectSnoc(hs[1..], kind);
    assert hs[1..][..n - 1] == hs[1..n] && hs[..n][1..] == hs[1..n];
  }

  lemma {:induction false} SelectConcat(a: seq<Handler>, b: seq<Handler>, kind: Kind)
    ensures Select(a + b, kind) == Select(a, kind) + Select(b, kind)
  {
    if a == [] {
      assert a + b == b;
    } else {
      SelectConcat(a[1..], b, kind);
      assert (a + b)[1..] == a[1..] + b;
    }
  }

  /** An outbound walk meets the handlers of its kind in exactly the opposite order of an inbound one. */
  lemma {:induction false} SelectReversed(hs: seq<Handler>, kind: Kind)
    ensures Select(Reversed(hs), kind) == Reversed(Select(hs, kind))
  {
    if hs != [] {
      SelectReversed(hs[1..], kind);
      SelectConcat(Reversed(hs[1..]), [hs[0]], kind);
      assert [hs[0]][1..] == [];
      if kind in hs[0].kinds {
        assert Select([hs[0]], kind) == [hs[0]];
        assert ([hs[0]] + Select(hs[1..], kind))[1..] == Select(hs[1..], kind);
      }
    }
  }

  /** One step of a forward walk, on the plain sequence. */
  lemma ReachedUnfold(hs: seq<Handler>, i: nat, kind: Kind, forwards: Handler -> bool)
    requires i <= |hs|
    ensures i == |hs| ==> Reached(Select(hs[i..], kind), forwards) == []
    ensures i < |hs| && kind !in hs[i].kinds ==> Select(hs[i..], kind) == Select(hs[i + 1..], kind)
    ensures i < |hs| && kind in hs[i].kinds ==>
              Reached(Select(hs[i..], kind), forwards) ==
              [hs[i]] + (if forwards(hs[i]) then Reached(Select(hs[i + 1..], kind), forwards) else [])
  {
    if i < |hs| {
      assert hs[i..][0] == hs[i] && hs[i..][1..] == hs[i + 1..];
      if kind in hs[i].kinds {
        var rest := Select(hs[i + 1..], kind);
        assert ([hs[i]] + rest)[1..] == rest;
        assert [hs[i]] + [] == [hs[i]];
      }
    }
  }

  /** One step of a backward walk. */
  lemma ReachedUnfoldBack(hs: seq<Handler>, i: nat, kind: Kind, forwards: Handler -> bool)
    requires i <= |hs|
    ensures i == 0 ==> Reached(Select(Reversed(hs[..i]), kind), forwards) == []
    ensures i > 0 && kind !in hs[i - 1].kinds ==> Select(Reversed(hs[..i]), kind) == Select(Reversed(hs[..i - 1]), kind)
    ensures i > 0 && kind in hs[i - 1].kinds ==>
              Reached(Select(Reversed(hs[..i]), kind), forwards) ==
              [hs[i - 1]] + (if forwards(hs[i - 1]) then Reached(Select(Reversed(hs[..i - 1]), kind), forwards) else [])
  {
    if i > 0 {
      assert hs[..i] == hs[..i - 1] + [hs[i - 1]];
      ReversedSnoc(hs[..i - 1], hs[i - 1]);
      var back := [hs[i - 1]] + Reversed(hs[..i - 1]);
      assert back[1..] == Reversed(hs[..i - 1]);
      ReachedUnfold(back, 0, kind, forwards);
      assert back[0..] == back;
    }
  }

  lemma CarriedInsert(nodes: seq<Context>, at: nat, node: Context)
    requires 1 <= at < |nodes|
    ensures Carried(Insert(nodes, at, node)) == Insert(Carried(nodes), at, node.handler)
    ensures var ns := Insert(nodes, at, node);
            |ns| == |nodes| + 1 && ns[0] == nodes[0] && ns[|ns| - 1] == nodes[|nodes| - 1]
    ensures forall c :: c in Insert(nodes, at, node) <==> c in nodes || c == node
  {
  }

  lemma InsertPlaces(nodes: seq<Context>, at: nat, node: Context)
    requires at <= |nodes|
    ensures |Insert(nodes, at, node)| == |nodes| + 1 && Insert(nodes, at, node)[at] == node
  {
  }

  lemma ApartInsert(nodes: seq<Context>, at: nat, node: Context)
    requires at <= |nodes| && Apart(nodes) && node !in nodes
    ensures Apart(Insert(nodes, at, node))
  {
  }

  lemma ForwardInsert(nodes: seq<Context>, at: nat, node: Context)
    requires 1 <= at < |nodes| && Forward(nodes, at - 1)
    requires nodes[at - 1].next == node && node.next == nodes[at]
    ensures Forward(Insert(nodes, at, node), -1)
  {
    var ns := Insert(nodes, at, node);
    forall i | 0 <= i < |ns|
      ensures ns[i].next == At(ns, i + 1)
    {
      if i > at {
        assert ns[i] == nodes[i - 1] && nodes[i - 1].next == At(nodes, i);
      }
    }
  }

  lemma BackwardInsert(nodes: seq<Context>, at: nat, node: Context)
    requires 1 <= at < |nodes| && Backward(nodes, at)
    requires nodes[at].prev == node && node.prev == nodes[at - 1]
    ensures Backward(Insert(nodes, at, node), -1)
  {
    var ns := Insert(nodes, at, node);
    forall i | 0 <= i < |ns|
      ensures ns[i].prev == At(ns, i - 1)
    {
      if i > at {
        assert ns[i] == nodes[i - 1];
        assert i - 1 == at || nodes[i - 1].prev == At(nodes, i - 2);
      }
    }
  }

  class Pipe {
    var head: Context
    var tail: Context
    var size: int
    ghost var nodes: seq<Context>
    ghost var Repr: set<Context>

    ghost predicate Valid()
      reads this, Repr
    {
      && |nodes| >= 2
      && (forall c :: c in nodes ==> c in Repr)
      && Linked(nodes)
      && head == nodes[0] && tail == nodes[|nodes| - 1]
      && head.handler == Head && tail.handler == Tail
      && size == |nodes|
    }

    /** The pipeline as a plain sequence, sentinels included. */
    ghost function Handlers(): (hs: seq<Handler>)
      reads this
    {
      Carried(nodes)
    }

    /** NewPipelineWith. */
    constructor ()
      ensures Valid() && fresh(Repr)
      ensures Handlers() == [Head, Tail]
    {
      var h := new Context(Head, null, null);
      var t := new Context(Tail, null, null);
      h.next := t;
      t.prev := h;
      head, tail, size := h, t, 2;
      nodes, Repr := [h, t], {h, t};
    }

    /** The four assignments shared by addFirst, addLast and AddHandler: a new context goes in
        between two neighbours. */
    method Splice(left: Context, right: Context, h: Handler, ghost at: nat) returns (node: Context)
      requires Valid() && 1 <= at < |nodes| && left == nodes[at - 1] && right == nodes[at]
      modifies this, Repr
      ensures Valid() && Repr == old(Repr) + {node} && fresh(node) && head == old(head) && tail == old(tail)
      ensures nodes == Insert(old(nodes), at, node)
      ensures Handlers() == Insert(old(Handlers()), at, h)
    {
      hide Carried, Insert;
      node := new Context(h, left, right);
      left.next := node;
      right.prev := node;
      size := size + 1;
      ApartInsert(nodes, at, node);
      ForwardInsert(nodes, at, node);
      BackwardInsert(nodes, at, node);
      CarriedInsert(nodes, at, node);
      nodes, Repr := Insert(nodes, at, node), Repr + {node};
    }

    lemma Neighbours(i: nat)
      requires Valid() && i < |nodes|
      ensures nodes[i].next == (if i + 1 < |nodes| then nodes[i + 1] else null)
      ensures nodes[i].prev == (if i > 0 then nodes[i - 1] else null)
      ensures size == |nodes| == |Handlers()| >= 2 && head == nodes[0] && tail == nodes[|nodes| - 1]
      ensures Handlers()[i] == nodes[i].handler
    {
    }

    lemma Sentinels()
      requires Valid()
      ensures |nodes| == |Handlers()| >= 2 && head == nodes[0] && tail == nodes[|nodes| - 1]
      ensures Handlers()[0] == Head && Handlers()[|nodes| - 1] == Tail
      ensures Inbound !in Tail.kinds && Exception in Tail.kinds
    {
    }

    /** AddFirst: one at a time behind the head, so the handlers end up in reverse. False stands for
        the panic of checkHandler, which leaves the earlier handlers in. */
    method AddFirst(handlers: seq<Handler>) returns (ok: bool)
      requires Valid()
      modifies this, Repr
      ensures Valid() && fresh(Repr - old(Repr))
      ensures ok <==> Accepted(handlers) == |handlers|
      ensures Handlers() == InsertAll(old(Handlers()), 1, Reversed(handlers[..Accepted(handlers)]))
    {
      hide Linked, Carried, Insert, InsertAll;
      ghost var before := Handlers();
      Neighbours(0);
      StartInsert(before, 1);
      var i := 0;
      while i < |handlers|
        invariant Valid() && fresh(Repr - old(Repr))
        invariant 0 <= i <= Accepted(handlers)
        invariant Handlers() == InsertAll(before, 1, Reversed(handlers[..i]))
      {
        if !Recognized(handlers[i]) {
          return false;
        }
        Neighbours(0);
        var node := Splice(head, head.next, handlers[i], 1);
        assert handlers[..i + 1] == handlers[..i] + [handlers[i]];
        ReversedSnoc(handlers[..i], handlers[i]);
        InsertBefore(before, 1, Reversed(handlers[..i]), handlers[i]);
        i := i + 1;
      }
      ok := true;
    }

    /** AddLast: one at a time before the tail, in order. */
    method AddLast(handlers: seq<Handler>) returns (ok: bool)
      requires Valid()
      modifies this, Repr
      ensures Valid() && fresh(Repr - old(Repr))
      ensures ok <==> Accepted(handlers) == |handlers|
      ensures Handlers() == InsertAll(old(Handlers()), |old(Handlers())| - 1, handlers[..Accepted(handlers)])
    {
      hide Linked, Carried, Insert, InsertAll;
      ghost var before := Handlers();
      Neighbours(0);
      StartInsert(before, |before| - 1);
      var i := 0;
      while i < |handlers|
        invariant Valid() && fresh(Repr - old(Repr))
        invariant 0 <= i <= Accepted(handlers)
        invariant Handlers() == InsertAll(before, |before| - 1, handlers[..i])
      {
        if !Recognized(handlers[i]) {
          return false;
        }
        ghost var last := |nodes| - 1;
        Neighbours(last);
        var node := Splice(tail.prev, tail, handlers[i], last);
        assert handlers[..i + 1] == handlers[..i] + [handlers[i]];
        InsertAfter(before, |before| - 1, handlers[..i], handlers[i]);
        i := i + 1;
      }
      ok := true;
    }

    /** AddHandler. All handlers are checked first, so a rejected call changes nothing. */
    method AddHandler(position: int, handlers: seq<Handler>) returns (ok: bool)
      requires Valid()
      modifies this, Repr
      ensures Valid() && fresh(Repr - old(Repr))
      ensures ok <==> Accepted(handlers) == |handlers| && position < |old(Handlers())|
      ensures !ok ==> Handlers() == old(Handlers())
      ensures |old(Handlers())| >= 2
      ensures ok ==>
                Handlers() == InsertAll(old(Handlers()), Slot(position, |old(Handlers())|), handlers)
    {
      Neighbours(0);
      if exists i :: 0 <= i < |handlers| && !Recognized(handlers[i]) {
        return false;
      }
      assert handlers[..|handlers|] == handlers;
      if position >= size {
        return false;
      }
      if position == -1 || position == size - 1 {
        ok := AddLast(handlers);
        return;
      }
      var cur := Seek(position);
      InsertFrom(cur, Slot(position, |nodes|), handlers);
      ok := true;
    }

    /** The insertion loop of AddHandler, from the context before the slot. */
    method InsertFrom(start: Context, ghost at: nat, handlers: seq<Handler>)
      requires Valid() && 1 <= at < |nodes| && start == nodes[at - 1]
      modifies this, Repr
      ensures Valid() && fresh(Repr - old(Repr))
      ensures at <= |old(Handlers())| && Handlers() == InsertAll(old(Handlers()), at, handlers)
    {
      hide Linked, Carried, Insert, InsertAll;
      ghost var before := Handlers();
      Neighbours(0);
      StartInsert(before, at);
      var cur := start;
      var i := 0;
      while i < |handlers|
        invariant Valid() && fresh(Repr - old(Repr))
        invariant 0 <= i <= |handlers| && |nodes| == |before| + i
        invariant cur == nodes[at - 1 + i]
        invariant Handlers() == InsertAll(before, at, handlers[..i])
      {
        Neighbours(at - 1 + i);
        ghost var ns := nodes;
        cur := Splice(cur, cur.next, handlers[i], at + i);
        InsertPlaces(ns, at + i, cur);
        assert handlers[..i + 1] == handlers[..i] + [handlers[i]];
        InsertAfter(before, at, handlers[..i], handlers[i]);
        i := i + 1;
      }
      assert handlers[..|handlers|] == handlers;
    }

    // ----- lookups -----

    /** The counting loop of AddHandler and ContextAt; it does not turn for a negative position. */
    method Seek(position: int) returns (cur: Context)
      requires Valid() && position < |nodes|
      ensures cur == nodes[if position < 0 then 0 else position]
    {
      cur := head;
      var i := 0;
      while i < position
        invariant 0 <= i && (position >= 0 ==> i <= position) && i < |nodes| && cur == nodes[i]
        invariant position < 0 ==> i == 0
      {
        Neighbours(i);
        cur := cur.next;
        i := i + 1;
      }
    }

    /** IndexOf: the first position whose handler satisfies the test. */
    method IndexOf(comp: Handler -> bool) returns (r: int)
      requires Valid()
      ensures -1 <= r < |Handlers()|
      ensures r >= 0 ==> comp(Handlers()[r])
      ensures forall i :: 0 <= i < (if r < 0 then |Handlers()| else r) ==> !comp(Handlers()[i])
    {
      var cur: Context? := head;
      var i := 0;
      while cur != null
        invariant 0 <= i <= |nodes| && cur == At(nodes, i)
        invariant forall k :: 0 <= k < i ==> !comp(Handlers()[k])
        decreases |nodes| - i
      {
        Neighbours(i);
        if comp(cur.handler) {
          return i;
        }
        cur := cur.next;
        i := i + 1;
      }
      return -1;
    }

    /** LastIndexOf: the last such position. */
    method LastIndexOf(comp: Handler -> bool) returns (r: int)
      requires Valid()
      ensures -1 <= r < |Handlers()|
      ensures r >= 0 ==> comp(Handlers()[r])
      ensures forall i :: r < i < |Handlers()| ==> !comp(Handlers()[i])
    {
      var cur: Context? := tail;
      var i := size - 1;
      while cur != null
        invariant -1 <= i < |nodes| && cur == At(nodes, i)
        invariant forall k :: i < k < |nodes| ==> !comp(Handlers()[k])
        decreases i
      {
        Neighbours(i);
        if comp(cur.handler) {
          return i;
        }
        cur := cur.prev;
        i := i - 1;
      }
      return -1;
    }

    /** ContextAt: the context at a position, null for -1 and beyond the end, the head for any other
        negative position. */
    method ContextAt(position: int) returns (c: Context?)
      requires Valid()
      ensures c == if position == -1 || position >= |Handlers()| then null
                   else At(nodes, if position < 0 then 0 else position)
    {
      if position == -1 || position >= size {
        return null;
      }
      c := Seek(position);
    }

    // ----- event walks -----

    /** HandleRead, HandleActive, HandleException and HandleEvent of a context: find the next handler
        of the kind, let it act, and go on from there if it forwards. What is visited is the plain
        sequence's handlers of that kind, in ascending order, each once. */
    method WalkForward(hc: Context, ghost at: nat, kind: Kind, forwards: Handler -> bool)
      returns (visited: seq<Handler>)
      requires Valid() && at < |nodes| && hc == nodes[at]
      ensures visited == Reached(Select(Handlers()[at + 1..], kind), forwards)
      decreases |nodes| - at
    {
      hide Linked, Carried, Reached;
      var cur: Context? := hc;
      ghost var i := at;
      ghost var hs := Handlers();
      while true
        invariant at <= i < |nodes| == |hs| && cur == nodes[i]
        invariant Select(hs[at + 1..], kind) == Select(hs[i + 1..], kind)
        decreases |nodes| - i
      {
        Neighbours(i);
        cur := cur.next;
        i := i + 1;
        ReachedUnfold(hs, i, kind, forwards);
        if cur == null {
          return [];
        }
        Neighbours(i);
        if kind in cur.handler.kinds {
          visited := [cur.handler];
          if forwards(cur.handler) {
            var more := WalkForward(cur, i, kind, forwards);
            visited := visited + more;
          }
          return;
        }
      }
    }

    /** HandleWrite, Write, HandleInactive and Close of a context: the same towards the head, so in
        descending order. */
    method WalkBackward(hc: Context, ghost at: nat, kind: Kind, forwards: Handler -> bool)
      returns (visited: seq<Handler>)
      requires Valid() && at < |nodes| && hc == nodes[at]
      ensures visited == Reached(Select(Reversed(Handlers()[..at]), kind), forwards)
      decreases at
    {
      hide Linked, Carried, Reached;
      var cur: Context? := hc;
      ghost var i: int := at;
      ghost var hs := Handlers();
      while true
        invariant 0 <= i <= at < |nodes| == |hs| && cur == nodes[i]
        invariant Select(Reversed(hs[..at]), kind) == Select(Reversed(hs[..i]), kind)
        decreases i
      {
        Neighbours(i);
        ReachedUnfoldBack(hs, i, kind, forwards);
        cur := cur.prev;
        i := i - 1;
        if cur == null {
          return [];
        }
        Neighbours(i);
        if kind in cur.handler.kinds {
          visited := [cur.handler];
          if forwards(cur.handler) {
            var more := WalkBackward(cur, i, kind, forwards);
            visited := visited + more;
          }
          return;
        }
      }
    }

    lemma ReadsStop()
      requires Valid()
      ensures var hs := Handlers();
              && |hs| == |nodes| >= 2 && head == nodes[0]
              && Select(hs[0 + 1..], Inbound) == Select(hs[1..|hs| - 1], Inbound)
    {
      hide *;
      Sentinels();
      SelectEnds(Handlers(), Inbound);
    }

    lemma ExceptionsStop()
      requires Valid()
      ensures var hs := Handlers();
              && |hs| == |nodes| >= 2 && head == nodes[0]
              && Select(hs[0 + 1..], Exception) == Select(hs[1..|hs| - 1], Exception) + [hs[|hs| - 1]]
    {
      hide *;
      Sentinels();
      SelectEnds(Handlers(), Exception);
    }

    /** fireChannelRead: the inbound handlers between the sentinels, ascending; nothing is left for the
        tail. */
    method FireRead(forwards: Handler -> bool) returns (visited: seq<Handler>)
      requires Valid()
      ensures var hs := Handlers();
              |hs| >= 2 && visited == Reached(Select(hs[1..|hs| - 1], Inbound), forwards)
    {
      ReadsStop();
      hide *;
      visited := WalkForward(head, 0, Inbound, forwards);
    }

    /** fireChannelWrite: the outbound handlers between the sentinels, descending, and the head last, which
        hands the message to the channel. */
    method FireWrite(forwards: Handler -> bool) returns (visited: seq<Handler>)
      requires Valid()
      ensures var hs := Handlers();
              |hs| >= 2 && visited == Reached(Reversed(Select(hs[1..|hs| - 1], Outbound)) + [hs[0]], forwards)
    {
      Sentinels();
      TowardsHead(Handlers(), Outbound);
      hide *;
      visited := WalkBackward(tail, |nodes| - 1, Outbound, forwards);
    }

    /** fireChannelInactive: the handlers of that kind, descending, and the head last, which closes. */
    method FireInactive(forwards: Handler -> bool) returns (visited: seq<Handler>)
      requires Valid()
      ensures var hs := Handlers();
              |hs| >= 2 && visited == Reached(Reversed(Select(hs[1..|hs| - 1], Inactive)) + [hs[0]], forwards)
    {
      Sentinels();
      TowardsHead(Handlers(), Inactive);
      hide *;
      visited := WalkBackward(tail, |nodes| - 1, Inactive, forwards);
    }

    /** fireChannelException: the handlers of that kind, ascending, and the tail last, which closes. */
    method FireException(forwards: Handler -> bool) returns (visited: seq<Handler>)
      requires Valid()
      ensures var hs := Handlers();
              |hs| >= 2 && visited == Reached(Select(hs[1..|hs| - 1], Exception) + [hs[|hs| - 1]], forwards)
    {
      ExceptionsStop();
      hide *;
      visited := WalkForward(head, 0, Exception, forwards);
    }
  }

  lemma TowardsHead(hs: seq<Handler>, kind: Kind)
    requires |hs| >= 2 && kind in hs[0].kinds
    ensures Select(Reversed(hs[..|hs| - 1]), kind) == Reversed(Select(hs[1..|hs| - 1], kind)) + [hs[0]]
  {
    var n := |hs| - 1;
    SelectEnds(hs, kind);
    SelectReversed(hs[..n], kind);
    var inner := Select(hs[1..n], kind);
    assert ([hs[0]] + inner)[0] == hs[0] && ([hs[0]] + inner)[1..] == inner;
  }
}
