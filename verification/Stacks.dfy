/** The two local stacks of the tree search: the bounded backtracking stack of a dive and the
    sibling stack of a plunge, both over the fixed-capacity circular deque. */
module Stacks {
  import opened Extended

  // ------------------------------------------------------------------ circular deque

  lemma Wraps(x: nat, n: nat)
    requires 0 <= x < 2 * n
    ensures x % n == if x < n then x else x - n
  {
    if x >= n { assert x == n * 1 + (x - n); }
  }

  /** One slot more than the capacity tells a full deque from an empty one. */
  class CircularDeque<T> {
    const buffer: array<T>
    var head: nat
    var tail: nat
    ghost var items: seq<T>

    ghost predicate Valid()
      reads this, buffer
    {
      && head < buffer.Length && tail < buffer.Length
      && items == if head <= tail then buffer[head..tail] else buffer[head..] + buffer[..tail]
    }

    constructor (capacity: nat, filler: T)
      ensures Valid() && fresh(buffer) && items == [] && buffer.Length == capacity + 1
    {
      buffer := new T[capacity + 1](_ => filler);
      head, tail, items := 0, 0, [];
    }

    function Next(i: nat): (j: nat)
      requires i < buffer.Length
      ensures j == if i + 1 == buffer.Length then 0 else i + 1
    {
      (i + 1) % buffer.Length
    }

    function Prev(i: nat): (j: nat)
      requires i < buffer.Length
      ensures j == if i == 0 then buffer.Length - 1 else i - 1
    {
      Wraps(i + buffer.Length - 1, buffer.Length);
      (i + buffer.Length - 1) % buffer.Length
    }

    method Size() returns (n: nat)
      requires Valid()
      ensures n == |items|
    {
      Wraps(tail + buffer.Length - head, buffer.Length);
      n := (tail + buffer.Length - head) % buffer.Length;
    }

    method PushFront(x: T)
      requires Valid() && |items| + 1 < buffer.Length
      modifies this, buffer
      ensures Valid() && items == [x] + old(items)
    {
      head := Prev(head);
      buffer[head] := x;
      items := [x] + items;
    }

    method PopFront() returns (x: T)
      requires Valid() && items != []
      modifies this
      ensures Valid() && x == old(items)[0] && items == old(items)[1..]
    {
      x := buffer[head];
      head := Next(head);
      items := items[1..];
    }

    method PopBack() returns (x: T)
      requires Valid() && items != []
      modifies this
      ensures Valid() && x == old(items)[|old(items)| - 1] && items == old(items)[..|old(items)| - 1]
    {
      tail := Prev(tail);
      x := buffer[tail];
      items := items[..|items| - 1];
    }

    method Front() returns (x: T)
      requires Valid() && items != []
      ensures x == items[0]
    {
      x := buffer[head];
    }

    method Back() returns (x: T)
      requires Valid() && items != []
      ensures x == items[|items| - 1]
    {
      x := buffer[Prev(tail)];
    }
  }

  // ------------------------------------------------------------------ dives

  /** What a dive does with the node it takes off the stack. */
  datatype DiveOutcome = Pruned | Childless | Branched(up: bool) | Stopped

  datatype Entry = Entry(depth: int, id: nat)

  /** The top two may be siblings; below them depths strictly decrease. */
  ghost predicate Descending(s: seq<Entry>) {
    && (|s| > 1 ==> s[0].depth >= s[1].depth)
    && forall i, j :: 1 <= i < j < |s| ==> s[i].depth > s[j].depth
  }

  ghost predicate WithinLimit(s: seq<Entry>, limit: nat) {
    |s| > 0 ==> s[0].depth - s[|s| - 1].depth <= limit
  }

  lemma {:induction false} LengthByGap(s: seq<Entry>, i: nat)
    requires Descending(s) && 1 <= i < |s|
    ensures s[1].depth - s[i].depth >= i - 1
  {
    if i > 1 { LengthByGap(s, i - 1); }
  }

  /** Depths bound the number of entries. */
  lemma SizeByLimit(s: seq<Entry>, limit: int)
    requires Descending(s) && (|s| > 0 ==> s[0].depth - s[|s| - 1].depth <= limit) && limit >= 0
    ensures |s| <= limit + 2
  {
    if |s| > 1 { LengthByGap(s, |s| - 1); }
  }

  lemma PopKeeps(s: seq<Entry>, limit: nat)
    requires s != [] && Descending(s) && WithinLimit(s, limit)
    ensures Descending(s[1..]) && WithinLimit(s[1..], limit)
  {
  }

  /** Two children above what is left: one level deeper, one more level in the gap. */
  lemma PushPairKeeps(rest: seq<Entry>, popped: Entry, a: nat, b: nat, limit: nat)
    requires Descending([popped] + rest) && WithinLimit([popped] + rest, limit)
    ensures var s := [Entry(popped.depth + 1, a), Entry(popped.depth + 1, b)] + rest;
            Descending(s) && s[0].depth - s[|s| - 1].depth <= limit + 1
  {
    var full := [popped] + rest;
    var s := [Entry(popped.depth + 1, a), Entry(popped.depth + 1, b)] + rest;
    forall i, j | 1 <= i < j < |s| ensures s[i].depth > s[j].depth {
      assert s[j] == full[j - 1];
      if i > 1 { assert s[i] == full[i - 1]; }
    }
  }

  /** Trimming once is enough: the entry above the removed one is at least a level higher. */
  lemma TrimOnce(s: seq<Entry>, limit: nat)
    requires |s| > 1 && Descending(s) && limit < s[0].depth - s[|s| - 1].depth <= limit + 1
    ensures Descending(s[..|s| - 1]) && WithinLimit(s[..|s| - 1], limit)
  {
  }

  ghost predicate AlmostWithin(s: seq<Entry>, limit: nat) {
    |s| > 0 ==> s[0].depth - s[|s| - 1].depth <= limit + 1
  }

  /** The stack without its oldest entry when that lies more than the limit above the newest. */
  function Trimmed(s: seq<Entry>, limit: nat): seq<Entry> {
    if |s| > 1 && s[0].depth - s[|s| - 1].depth > limit then s[..|s| - 1] else s
  }

  method TooDeep(stack: CircularDeque<Entry>, limit: nat) returns (deep: bool)
    requires stack.Valid()
    ensures deep <==> |stack.items| > 1 && !WithinLimit(stack.items, limit)
  {
    var size := stack.Size();
    if size <= 1 { return false; }
    var top := stack.Front();
    var bottom := stack.Back();
    deep := top.depth - bottom.depth > limit;
  }

  /** The single pop of the deterministic policy. */
  method TrimSingle(stack: CircularDeque<Entry>, limit: nat)
    requires stack.Valid() && Descending(stack.items) && AlmostWithin(stack.items, limit)
    modifies stack
    ensures stack.Valid() && Descending(stack.items) && WithinLimit(stack.items, limit)
    ensures stack.items == Trimmed(old(stack.items), limit)
  {
    var deep := TooDeep(stack, limit);
    if deep {
      TrimOnce(stack.items, limit);
      var dropped := stack.PopBack();
    }
  }

  /** The trimming loop of dive_with. */
  method TrimLoop(stack: CircularDeque<Entry>, limit: nat)
    requires stack.Valid() && Descending(stack.items) && AlmostWithin(stack.items, limit)
    modifies stack
    ensures stack.Valid() && Descending(stack.items) && WithinLimit(stack.items, limit)
    ensures stack.items == Trimmed(old(stack.items), limit)
  {
    var deep := TooDeep(stack, limit);
    while deep
      invariant stack.Valid() && Descending(stack.items) && AlmostWithin(stack.items, limit)
      invariant stack.items == old(stack.items) || (!deep && stack.items == Trimmed(old(stack.items), limit))
      invariant deep <==> |stack.items| > 1 && !WithinLimit(stack.items, limit)
      decreases |stack.items|
    {
      TrimOnce(stack.items, limit);
      var dropped := stack.PopBack();
      deep := TooDeep(stack, limit);
    }
  }

  /** The children of `node`, one level deeper: id goes down, id + 1 up, the preferred one first. */
  function Pair(node: Entry, id: nat, up: bool): seq<Entry> {
    var down, over := Entry(node.depth + 1, id), Entry(node.depth + 1, id + 1);
    if up then [over, down] else [down, over]
  }

  /** Both children of `node`, the preferred one on top. */
  method PushChildren(stack: CircularDeque<Entry>, node: Entry, id: nat, up: bool, limit: nat)
    requires stack.Valid() && stack.buffer.Length >= limit + 5
    requires Descending([node] + stack.items) && WithinLimit([node] + stack.items, limit)
    modifies stack, stack.buffer
    ensures stack.Valid() && Descending(stack.items) && AlmostWithin(stack.items, limit)
    ensures stack.items == Pair(node, id, up) + old(stack.items)
  {
    SizeByLimit([node] + stack.items, limit);
    PairKeeps(stack.items, node, id, up, limit);
    StackChildren(stack, node, id, up);
  }

  method StackChildren(stack: CircularDeque<Entry>, node: Entry, id: nat, up: bool)
    requires stack.Valid() && |stack.items| + 2 < stack.buffer.Length
    modifies stack, stack.buffer
    ensures stack.Valid() && stack.items == Pair(node, id, up) + old(stack.items)
  {
    var down, over := Entry(node.depth + 1, id), Entry(node.depth + 1, id + 1);
    if up { PushTwo(stack, over, down); } else { PushTwo(stack, down, over); }
  }

  method PushTwo(stack: CircularDeque<Entry>, first: Entry, second: Entry)
    requires stack.Valid() && |stack.items| + 2 < stack.buffer.Length
    modifies stack, stack.buffer
    ensures stack.Valid() && stack.items == [first, second] + old(stack.items)
  {
    ghost var rest := stack.items;
    stack.PushFront(second);
    assert stack.items == [second] + rest;
    stack.PushFront(first);
    assert stack.items == [first] + ([second] + rest);
  }

  lemma PairKeeps(rest: seq<Entry>, node: Entry, id: nat, up: bool, limit: nat)
    requires Descending([node] + rest) && WithinLimit([node] + rest, limit)
    ensures Descending(Pair(node, id, up) + rest) && AlmostWithin(Pair(node, id, up) + rest, limit)
  {
    PushPairKeeps(rest, node, if up then id + 1 else id, if up then id else id + 1, limit);
  }

  /** The stack after one iteration: the top entry leaves; branching puts its children on top and drops
      the oldest entry if it has fallen too far behind. */
  function DiveNext(s: seq<Entry>, limit: nat, outcome: DiveOutcome, id: nat): seq<Entry>
    requires s != []
  {
    if outcome.Branched? then Trimmed(Pair(s[0], id, outcome.up) + s[1..], limit) else s[1..]
  }

  /** One iteration of a dive on a nonempty stack, the same for either way of trimming. */
  method DiveStep(stack: CircularDeque<Entry>, limit: nat, loops: bool, outcome: DiveOutcome, id: nat)
    requires stack.Valid() && stack.buffer.Length >= limit + 5 && stack.items != []
    requires Descending(stack.items) && WithinLimit(stack.items, limit)
    modifies stack, stack.buffer
    ensures stack.Valid() && Descending(stack.items) && WithinLimit(stack.items, limit)
    ensures stack.items == DiveNext(old(stack.items), limit, outcome, id)
  {
    PopKeeps(stack.items, limit);
    ghost var before := stack.items;
    var node := stack.PopFront();
    assert before == [node] + stack.items;
    hide Descending, WithinLimit, AlmostWithin;
    if outcome.Branched? {
      PushChildren(stack, node, id, outcome.up, limit);
      Trim(stack, limit, loops);
    } else if loops && outcome.Childless? {
      TrimmedWithin(stack.items, limit);
      Trim(stack, limit, loops);
    }
  }

  lemma TrimmedWithin(s: seq<Entry>, limit: nat)
    requires WithinLimit(s, limit)
    ensures Trimmed(s, limit) == s && AlmostWithin(s, limit)
  {
  }

  method Trim(stack: CircularDeque<Entry>, limit: nat, loops: bool)
    requires stack.Valid() && Descending(stack.items) && AlmostWithin(stack.items, limit)
    modifies stack
    ensures stack.Valid() && Descending(stack.items) && WithinLimit(stack.items, limit)
    ensures stack.items == Trimmed(old(stack.items), limit)
  {
    if loops { TrimLoop(stack, limit); } else { TrimSingle(stack, limit); }
  }

  /** The stack of a dive after its first k iterations; None if it ran empty before. */
  function Dived(start: Entry, limit: nat, outcomes: seq<DiveOutcome>, k: nat): Option<seq<Entry>>
    requires k <= |outcomes|
  {
    if k == 0 then Some([start])
    else
      match Dived(start, limit, outcomes, k - 1)
      case None => None
      case Some(s) => if s == [] then None else Some(DiveNext(s, limit, outcomes[k - 1], 2 * (k - 1)))
  }

  lemma DivedNext(start: Entry, limit: nat, outcomes: seq<DiveOutcome>, k: nat, s: seq<Entry>)
    requires k < |outcomes| && Dived(start, limit, outcomes, k) == Some(s) && s != []
    ensures Dived(start, limit, outcomes, k + 1) == Some(DiveNext(s, limit, outcomes[k], 2 * k))
  {
  }

  /** A dive with a fixed-capacity stack. `loops` selects the trimming loop of dive_with; otherwise
      trimming is the single pop of the deterministic policy. A capacity of the limit plus four
      suffices for both, on every sequence of outcomes: no push ever meets a full deque. */
  method Dive(start: Entry, limit: nat, capacity: nat, loops: bool, outcomes: seq<DiveOutcome>)
    returns (explored: nat, gap: int, size: nat)
    requires capacity >= limit + 4
    ensures explored <= |outcomes|
    ensures gap <= limit && size <= limit + 2
    ensures Dived(start, limit, outcomes, explored).Some? && size == |Dived(start, limit, outcomes, explored).value|
    ensures explored < |outcomes| ==> size == 0 || (explored > 0 && outcomes[explored - 1].Stopped?)
  {
    var stack := new CircularDeque<Entry>(capacity, start);
    stack.PushFront(start);
    assert stack.items == [start];
    explored, size := 0, 1;
    var stopped := false;
    while size > 0 && explored < |outcomes| && !stopped
      invariant stack.Valid() && fresh(stack) && fresh(stack.buffer) && stack.buffer.Length == capacity + 1
      invariant Descending(stack.items) && WithinLimit(stack.items, limit)
      invariant size == |stack.items| && explored <= |outcomes|
      invariant Dived(start, limit, outcomes, explored) == Some(stack.items)
      invariant stopped ==> explored > 0 && outcomes[explored - 1].Stopped?
      decreases |outcomes| - explored
    {
      DivedNext(start, limit, outcomes, explored, stack.items);
      hide Dived, DiveNext, Descending, WithinLimit, CircularDeque.Valid;
      DiveStep(stack, limit, loops, outcomes[explored], 2 * explored);
      size := stack.Size();
      stopped := outcomes[explored].Stopped?;
      explored := explored + 1;
    }
    SizeByLimit(stack.items, limit);
    gap := Gap(stack);
  }

  /** Depth between the front and the back of the stack. */
  method Gap(stack: CircularDeque<Entry>) returns (gap: int)
    requires stack.Valid()
    ensures gap == if stack.items == [] then 0 else stack.items[0].depth - stack.items[|stack.items| - 1].depth
  {
    var size := stack.Size();
    if size == 0 { return 0; }
    var top := stack.Front();
    var bottom := stack.Back();
    gap := top.depth - bottom.depth;
  }

  // ------------------------------------------------------------------ plunges

  datatype Leaf = Leaf(id: nat, parent: nat)

  /** What a plunge does with a node: fathom it unsolved, stop before or during its LP and put it
      back, close it, or branch on it; `refill` says the shared queue was short of nodes. */
  datatype PlungeOutcome = Fathomed | PutBack | Closed | Split(up: bool, refill: bool)

  ghost predicate Siblings(s: seq<Leaf>) {
    |s| <= 2 && (|s| == 2 ==> s[0].parent == s[1].parent && s[0] != s[1])
  }

  /** The sibling still on the stack, if any, makes room by moving to the shared queue. */
  method Evict(stack: CircularDeque<Leaf>, queue: seq<Leaf>) returns (queued: seq<Leaf>)
    requires stack.Valid() && |stack.items| <= 1
    modifies stack
    ensures stack.Valid() && stack.items == [] && queued == queue + old(stack.items)
  {
    queued := queue;
    ghost var was := stack.items;
    var size := stack.Size();
    if size > 0 {
      var sibling := stack.PopBack();
      assert was == [sibling];
      queued := queued + [sibling];
    }
  }

  /** Stack the children; the less preferred one goes to the queue when that is short of nodes. */
  method StackPair(stack: CircularDeque<Leaf>, queue: seq<Leaf>, first: Leaf, second: Leaf, refill: bool)
    returns (queued: seq<Leaf>)
    requires stack.Valid() && stack.buffer.Length == 3 && stack.items == []
    requires first.parent == second.parent && first != second
    modifies stack, stack.buffer
    ensures stack.Valid() && Siblings(stack.items)
    ensures stack.items == (if refill then [first] else [first, second]) && queued == queue + (if refill then [second] else [])
  {
    queued := queue;
    if refill {
      queued := queued + [second];
    } else {
      stack.PushFront(second);
    }
    stack.PushFront(first);
    assert stack.items == if refill then [first] else [first, second];
  }

  datatype Tally = Tally(queued: seq<Leaf>, finished: seq<Leaf>, created: seq<Leaf>, counter: nat)

  /** Every node so far is queued, finished or on the stack. */
  ghost predicate Conserved(start: Leaf, t: Tally, stacked: seq<Leaf>) {
    multiset(t.queued) + multiset(t.finished) + multiset(stacked) == multiset{start} + multiset(t.created)
  }

  /** Branching on `node`: its sibling, if still stacked, goes to the shared queue, the preferred child on
      top of the stack, the other below it, or behind the sibling in the queue when that is short. */
  predicate PlungeSplit(t: Tally, r: Tally, node: Leaf, before: seq<Leaf>, after: seq<Leaf>, up: bool, refill: bool) {
    var down, over := Leaf(t.counter + 1, node.id), Leaf(t.counter + 2, node.id);
    var first, second := if up then over else down, if up then down else over;
    && r.finished == t.finished + [node] && r.created == t.created + [down, over] && r.counter == t.counter + 2
    && after == (if refill then [first] else [first, second])
    && r.queued == t.queued + before + (if refill then [second] else [])
  }

  /** Branching on `node`, already taken off the stack. */
  method SplitNode(stack: CircularDeque<Leaf>, t: Tally, node: Leaf, up: bool, refill: bool, ghost start: Leaf)
    returns (r: Tally)
    requires stack.Valid() && stack.buffer.Length == 3 && |stack.items| <= 1
    requires Conserved(start, t, [node] + stack.items)
    modifies stack, stack.buffer
    ensures stack.Valid() && Siblings(stack.items) && Conserved(start, r, stack.items)
    ensures PlungeSplit(t, r, node, old(stack.items), stack.items, up, refill)
  {
    ghost var rest := stack.items;
    r := SplitPair(stack, t, node, up, refill);
    PlungeConserves(start, t, r, node, rest, stack.items, up, refill);
    hide Conserved, PlungeSplit;
  }

  method SplitPair(stack: CircularDeque<Leaf>, t: Tally, node: Leaf, up: bool, refill: bool) returns (r: Tally)
    requires stack.Valid() && stack.buffer.Length == 3 && |stack.items| <= 1
    modifies stack, stack.buffer
    ensures stack.Valid() && Siblings(stack.items) && PlungeSplit(t, r, node, old(stack.items), stack.items, up, refill)
  {
    var down, over := Leaf(t.counter + 1, node.id), Leaf(t.counter + 2, node.id);
    var queued := Evict(stack, t.queued);
    if up {
      queued := StackPair(stack, queued, over, down, refill);
    } else {
      queued := StackPair(stack, queued, down, over, refill);
    }
    r := Tally(queued, t.finished + [node], t.created + [down, over], t.counter + 2);
  }

  lemma PlungeConserves(start: Leaf, t: Tally, r: Tally, node: Leaf, rest: seq<Leaf>, stacked: seq<Leaf>, up: bool, refill: bool)
    requires Conserved(start, t, [node] + rest) && PlungeSplit(t, r, node, rest, stacked, up, refill)
    ensures Conserved(start, r, stacked)
  {
    hide Conserved;
    var down, over := Leaf(t.counter + 1, node.id), Leaf(t.counter + 2, node.id);
    PlungeQueues(t, r, node, rest, stacked, up, refill);
    assert r.finished == t.finished + [node] && r.created == t.created + [down, over];
    hide PlungeSplit;
    SplitConserves(start, t, node, rest, r, stacked, down, over);
  }

  lemma PlungeQueues(t: Tally, r: Tally, node: Leaf, rest: seq<Leaf>, stacked: seq<Leaf>, up: bool, refill: bool)
    requires PlungeSplit(t, r, node, rest, stacked, up, refill)
    ensures multiset(r.queued) + multiset(stacked)
         == multiset(t.queued) + multiset(rest) + multiset{Leaf(t.counter + 1, node.id), Leaf(t.counter + 2, node.id)}
  {
    var down, over := Leaf(t.counter + 1, node.id), Leaf(t.counter + 2, node.id);
    QueuedAndStacked(t.queued, rest, if up then over else down, if up then down else over, refill);
  }

  lemma QueuedAndStacked(queued: seq<Leaf>, rest: seq<Leaf>, first: Leaf, second: Leaf, refill: bool)
    ensures multiset(queued + rest + (if refill then [second] else [])) + multiset(if refill then [first] else [first, second])
         == multiset(queued) + multiset(rest) + multiset{first, second}
  {
    assert multiset([first, second]) == multiset{first, second};
  }

  lemma FinishConserves(start: Leaf, t: Tally, node: Leaf, rest: seq<Leaf>)
    requires Conserved(start, t, [node] + rest)
    ensures Conserved(start, t.(finished := t.finished + [node]), rest)
  {
    assert multiset([node] + rest) == multiset{node} + multiset(rest);
    assert multiset(t.finished + [node]) == multiset(t.finished) + multiset{node};
  }

  lemma SplitConserves(start: Leaf, t: Tally, node: Leaf, rest: seq<Leaf>, r: Tally, stacked: seq<Leaf>, a: Leaf, b: Leaf)
    requires Conserved(start, t, [node] + rest)
    requires multiset(r.queued) + multiset(stacked) == multiset(t.queued) + multiset(rest) + multiset{a, b}
    requires r.finished == t.finished + [node] && r.created == t.created + [a, b]
    ensures Conserved(start, r, stacked)
  {
    assert multiset(r.finished) == multiset(t.finished) + multiset{node};
    assert multiset(r.created) == multiset(t.created) + multiset{a, b};
    var q, f, k := multiset(t.queued), multiset(t.finished), multiset(rest);
    assert multiset([node] + rest) == multiset{node} + k;
    calc {
      multiset(r.queued) + multiset(r.finished) + multiset(stacked);
      (multiset(r.queued) + multiset(stacked)) + multiset(r.finished);
      (q + k + multiset{a, b}) + (f + multiset{node});
      (q + f + (multiset{node} + k)) + multiset{a, b};
    }
  }

  /** One iteration of a plunge on a nonempty stack. */
  method PlungeStep(stack: CircularDeque<Leaf>, t: Tally, outcome: PlungeOutcome, ghost start: Leaf)
    returns (r: Tally)
    requires stack.Valid() && stack.buffer.Length == 3 && stack.items != [] && Siblings(stack.items)
    requires Conserved(start, t, stack.items)
    modifies stack, stack.buffer
    ensures stack.Valid() && Siblings(stack.items) && Conserved(start, r, stack.items)
    ensures var node, rest := old(stack.items)[0], old(stack.items)[1..];
            match outcome
            case PutBack => stack.items == old(stack.items) && r == t
            case Split(up, refill) => PlungeSplit(t, r, node, rest, stack.items, up, refill)
            case _ => stack.items == rest && r == t.(finished := t.finished + [node])
  {
    ghost var before := stack.items;
    var node := stack.PopFront();
    assert before == [node] + stack.items;
    hide Conserved;
    if outcome.PutBack? {
      stack.PushFront(node);
      r := t;
    } else if outcome.Split? {
      r := SplitNode(stack, t, node, outcome.up, outcome.refill, start);
    } else {
      FinishConserves(start, t, node, stack.items);
      r := t.(finished := t.finished + [node]);
    }
  }

  /** Children are numbered from a counter, as search_tree_t does. The stack never holds more than
      two siblings, and on every exit each node is either finished or in the shared queue. */
  method Plunge(start: Leaf, counter: nat, outcomes: seq<PlungeOutcome>) returns (r: Tally)
    ensures multiset(r.queued) + multiset(r.finished) == multiset{start} + multiset(r.created)
  {
    var stack := new CircularDeque<Leaf>(2, start);
    stack.PushFront(start);
    r := Tally([], [], [], counter);
    var step, size, stopped := 0, 1, false;
    assert stack.items == [start];
    assert Conserved(start, r, stack.items);
    hide Conserved;
    while size > 0 && step < |outcomes| && !stopped
      invariant stack.Valid() && fresh(stack) && fresh(stack.buffer) && stack.buffer.Length == 3
      invariant Siblings(stack.items) && size == |stack.items| && Conserved(start, r, stack.items)
      decreases |outcomes| - step
    {
      r := PlungeStep(stack, r, outcomes[step], start);
      size := stack.Size();
      stopped := outcomes[step].PutBack?;
      step := step + 1;
    }
    ghost var rest := stack.items;
    var queued := Flush(stack, r.queued);
    FlushConserves(start, r, rest, queued);
    r := r.(queued := queued);
  }

  lemma FlushConserves(start: Leaf, t: Tally, rest: seq<Leaf>, queued: seq<Leaf>)
    requires Conserved(start, t, rest) && multiset(queued) == multiset(t.queued) + multiset(rest)
    ensures multiset(queued) + multiset(t.finished) == multiset{start} + multiset(t.created)
  {
    var q, f, k := multiset(t.queued), multiset(t.finished), multiset(rest);
    assert (q + k) + f == q + f + k;
  }

  /** What is left on the stack goes back to the shared queue. */
  method Flush(stack: CircularDeque<Leaf>, queue: seq<Leaf>) returns (queued: seq<Leaf>)
    requires stack.Valid()
    modifies stack
    ensures queued == queue + old(stack.items)
  {
    hide CircularDeque.Valid;
    queued := queue;
    var size := stack.Size();
    while size > 0
      invariant stack.Valid() && size == |stack.items|
      invariant queued + stack.items == queue + old(stack.items)
      decreases size
    {
      ghost var before := stack.items;
      var node := stack.PopFront();
      assert before == [node] + stack.items;
      queued := queued + [node];
      size := stack.Size();
    }
  }
}
