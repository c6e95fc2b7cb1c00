/** core/list.c and include/list.h: the circular doubly linked list threaded through its entries. */
module IntrusiveList {

  /** struct list_head; owner is what container_of recovers from it. Links are
      null until the node is first initialised or added. */
  class ListHead<T> {
    var next: ListHead?<T>
    var prev: ListHead?<T>
    const owner: T

    constructor (owner: T)
      ensures this.owner == owner && next == null && prev == null
    {
      this.owner := owner;
      next, prev := null, null;
    }
  }

  ghost predicate Distinct<T>(c: seq<T>) {
    forall i, j | 0 <= i < j < |c| :: c[i] != c[j]
  }

  /** The element after index i, going round. */
  ghost function After<T>(c: seq<T>, i: nat): T
    requires i < |c|
  {
    if i + 1 < |c| then c[i + 1] else c[0]
  }

  /** c is one cycle, its next and prev links mutually inverse. */
  ghost predicate Cycle<T>(c: seq<ListHead<T>>)
    reads c
  {
    && Distinct(c)
    && forall i {:trigger c[i].next} {:trigger After(c, i)} | 0 <= i < |c| ::
         c[i].next == After(c, i) && After(c, i).prev == c[i]
  }

  /** The list at head holds the entries s, in order. */
  ghost predicate List<T>(head: ListHead<T>, s: seq<ListHead<T>>)
    reads head, s
  {
    Cycle([head] + s)
  }

  /** INIT_LIST_HEAD */
  method Init<T>(head: ListHead<T>)
    modifies head
    ensures List(head, [])
  {
    head.next := head;
    head.prev := head;
  }

  ghost function Inserted<T>(c: seq<T>, k: nat, x: T): seq<T>
    requires k < |c|
  {
    c[..k + 1] + [x] + c[k + 1..]
  }

  /** __list_add */
  method Insert<T>(node: ListHead<T>, prev: ListHead<T>, next: ListHead<T>, ghost c: seq<ListHead<T>>, ghost k: nat)
    requires Cycle(c) && node !in c && k < |c| && prev == c[k] && next == After(c, k)
    modifies node, prev, next
    ensures Cycle(Inserted(c, k, node))
  {
    next.prev := node;
    node.next := next;
    node.prev := prev;
    prev.next := node;
    ghost var d := Inserted(c, k, node);
    forall i | 0 <= i < |d|
      ensures d[i].next == After(d, i) && After(d, i).prev == d[i]
    {
      if i < k {
        assert c[i].next == After(c, i) && d[i] == c[i];
      } else if i > k + 1 {
        assert c[i - 1].next == After(c, i - 1) && d[i] == c[i - 1];
      }
    }
  }

  /** list_add: right after the head. */
  method Add<T>(node: ListHead<T>, head: ListHead<T>, ghost s: seq<ListHead<T>>)
    requires List(head, s) && node != head && node !in s
    modifies node, head, s
    ensures List(head, [node] + s)
  {
    ghost var c := [head] + s;
    assert c[0].next == After(c, 0);
    Insert(node, head, head.next, c, 0);
    assert Inserted(c, 0, node) == [head] + ([node] + s);
  }

  /** list_add_tail: right before the head. */
  method AddTail<T>(node: ListHead<T>, head: ListHead<T>, ghost s: seq<ListHead<T>>)
    requires List(head, s) && node != head && node !in s
    modifies node, head, s
    ensures List(head, s + [node])
  {
    ghost var c, k := [head] + s, |s|;
    assert c[k].next == After(c, k) == head;
    Insert(node, head.prev, head, c, k);
    assert Inserted(c, k, node) == [head] + (s + [node]);
  }

  ghost function Removed<T>(s: seq<T>, k: nat): seq<T>
    requires k < |s|
  {
    s[..k] + s[k + 1..]
  }

  lemma RemovedDistinct<T>(c: seq<T>, k: nat)
    requires Distinct(c) && k < |c|
    ensures Distinct(Removed(c, k))
  {
  }

  lemma HeadNotEntry<T>(head: ListHead<T>, s: seq<ListHead<T>>)
    requires List(head, s)
    ensures head !in s
  {
    var c := [head] + s;
    assert forall i | 0 <= i < |s| :: c[i + 1] == s[i] && c[0] != c[i + 1];
  }

  /** list_del: the entry's own links are left as they were. */
  method Del<T>(entry: ListHead<T>, ghost head: ListHead<T>, ghost s: seq<ListHead<T>>, ghost k: nat)
    requires List(head, s) && k < |s| && entry == s[k]
    modifies head, s
    ensures List(head, Removed(s, k))
    ensures entry.next == old(entry.next) && entry.prev == old(entry.prev)
  {
    ghost var c := [head] + s;
    assert c[k + 1] == entry && c[k].next == After(c, k) && c[k + 1].next == After(c, k + 1);
    var listNext, listPrev := entry.next, entry.prev;
    listNext.prev := listPrev;
    listPrev.next := listNext;
    ghost var d := [head] + Removed(s, k);
    RemovedDistinct(c, k + 1);
    assert d == Removed(c, k + 1);
    forall i | 0 <= i < |d|
      ensures d[i].next == After(d, i) && After(d, i).prev == d[i]
    {
      if i < k {
        assert c[i].next == After(c, i) && d[i] == c[i];
      } else if i > k {
        assert c[i + 1].next == After(c, i + 1) && d[i] == c[i + 1];
      }
    }
  }

  /** list_empty */
  method Empty<T>(head: ListHead<T>, ghost s: seq<ListHead<T>>) returns (empty: bool)
    requires List(head, s)
    ensures empty <==> s == []
  {
    ghost var c := [head] + s;
    assert c[0].next == After(c, 0);
    empty := head.next == head;
  }

  /** list_is_first and list_is_last */
  predicate IsFirst<T>(entry: ListHead<T>, head: ListHead<T>)
    reads entry
  {
    entry.prev == head
  }

  predicate IsLast<T>(entry: ListHead<T>, head: ListHead<T>)
    reads entry
  {
    entry.next == head
  }

  /** They hold of exactly the first and the last entry. */
  lemma EndsAreEnds<T>(head: ListHead<T>, s: seq<ListHead<T>>, k: nat)
    requires List(head, s) && k < |s|
    ensures IsFirst(s[k], head) <==> k == 0
    ensures IsLast(s[k], head) <==> k == |s| - 1
  {
    var c := [head] + s;
    HeadNotEntry(head, s);
    assert c[k].next == After(c, k) && After(c, k) == s[k] && After(c, k).prev == c[k];
    assert c[k + 1].next == After(c, k + 1) && c[k + 1] == s[k];
    assert k > 0 ==> c[k] == s[k - 1];
    assert k + 1 < |s| ==> c[k + 2] == s[k + 1];
  }

  /** The entry a cursor stands on after i steps, back at the head after the last. */
  ghost function CursorAt<T>(head: ListHead<T>, s: seq<ListHead<T>>, i: nat): ListHead<T>
    requires i <= |s|
  {
    if i < |s| then s[i] else head
  }

  lemma CursorAdvances<T>(head: ListHead<T>, s: seq<ListHead<T>>, i: nat)
    requires List(head, s) && i <= |s|
    ensures head.next == CursorAt(head, s, 0)
    ensures CursorAt(head, s, i) == head <==> i == |s|
    ensures i < |s| ==> s[i].next == CursorAt(head, s, i + 1)
  {
    var c := [head] + s;
    assert c[0].next == After(c, 0);
    if i < |s| {
      assert c[i + 1].next == After(c, i + 1) && c[i + 1] == s[i] && c[0] != c[i + 1];
    }
  }

  /** list_for_each visits every entry once, in order, and stops. */
  method ForEach<T>(head: ListHead<T>, ghost s: seq<ListHead<T>>) returns (visited: seq<ListHead<T>>)
    requires List(head, s)
    ensures visited == s
  {
    visited := [];
    CursorAdvances(head, s, 0);
    var pos := head.next;
    while pos != head
      invariant |visited| <= |s| && visited == s[..|visited|] && pos == CursorAt(head, s, |visited|)
      decreases |s| - |visited|
    {
      CursorAdvances(head, s, |visited|);
      visited := visited + [pos];
      pos := pos.next;
      CursorAdvances(head, s, |visited|);
    }
    CursorAdvances(head, s, |visited|);
  }

  /** The entries not in doomed. */
  ghost function Kept<T>(s: seq<ListHead<T>>, doomed: set<ListHead<T>>): seq<ListHead<T>> {
    if s == [] then []
    else Kept(s[..|s| - 1], doomed) + if s[|s| - 1] in doomed then [] else [s[|s| - 1]]
  }

  lemma KeptNext<T>(s: seq<ListHead<T>>, x: ListHead<T>, doomed: set<ListHead<T>>)
    ensures Kept(s + [x], doomed) == Kept(s, doomed) + if x in doomed then [] else [x]
  {
    assert (s + [x])[..|s + [x]| - 1] == s;
  }

  /** A safe traversal's cursor stands at index k of the current list now, which ends like s. */
  ghost predicate SameRest<T>(now: seq<ListHead<T>>, k: nat, s: seq<ListHead<T>>, i: nat) {
    k <= |now| && i <= |s| && now[k..] == s[i..] && forall x | x in now :: x in s
  }

  lemma RestShrinks<T>(now: seq<ListHead<T>>, k: nat, s: seq<ListHead<T>>, i: nat)
    requires SameRest(now, k, s, i) && i < |s|
    ensures k < |now| && now[k] == s[i]
    ensures SameRest(now, k + 1, s, i + 1)
    ensures SameRest(Removed(now, k), k, s, i + 1)
    ensures Removed(now, k)[..k] == now[..k] && now[..k + 1] == now[..k] + [s[i]]
  {
    assert now[k] == now[k..][0] && s[i] == s[i..][0];
    assert now[k + 1..] == now[k..][1..] && s[i + 1..] == s[i..][1..];
    assert Removed(now, k)[k..] == now[k + 1..];
  }

  lemma SafeCursor<T>(head: ListHead<T>, now: seq<ListHead<T>>, k: nat, s: seq<ListHead<T>>, i: nat)
    requires List(head, now) && SameRest(now, k, s, i)
    ensures CursorAt(head, now, k) == CursorAt(head, s, i)
    ensures CursorAt(head, s, i) == head <==> i == |s|
    ensures i < |s| ==> s[i].next == CursorAt(head, s, i + 1)
  {
    CursorAdvances(head, now, k);
    if i < |s| {
      RestShrinks(now, k, s, i);
      assert i + 1 < |s| ==> now[k + 1] == now[k..][1] && s[i + 1] == s[i..][1];
    }
  }

  /** list_for_each_safe, deleting the doomed entries on the way: still visits every entry of the
      original list once, in order, and leaves exactly the others. */
  method ForEachSafeDel<T>(head: ListHead<T>, ghost s: seq<ListHead<T>>, doomed: set<ListHead<T>>)
    returns (visited: seq<ListHead<T>>)
    requires List(head, s)
    modifies head, s
    ensures visited == s && List(head, Kept(s, doomed))
  {
    visited := [];
    ghost var now, k := s, 0;
    CursorAdvances(head, s, 0);
    var pos := head.next;
    var n := pos.next;
    while pos != head
      invariant List(head, now) && |visited| <= |s| && SameRest(now, k, s, |visited|)
      invariant visited == s[..|visited|] && now[..k] == Kept(visited, doomed)
      invariant pos == CursorAt(head, s, |visited|) && n == pos.next
      decreases |s| - |visited|
    {
      ghost var i := |visited|;
      SafeCursor(head, now, k, s, i);
      RestShrinks(now, k, s, i);
      KeptNext(visited, pos, doomed);
      visited := visited + [pos];
      if pos in doomed {
        assert forall j | 0 <= j < |now| :: now[j] in s;
        Del(pos, head, now, k);
        now := Removed(now, k);
      } else {
        k := k + 1;
      }
      pos := n;
      n := pos.next;
    }
    SafeCursor(head, now, k, s, |visited|);
    assert now[..k] == now;
  }

  // ----- scripts

  datatype Op<T> = OpAdd(node: T) | OpAddTail(node: T) | OpDel(node: T)

  ghost function IndexOf<T>(s: seq<T>, x: T): (k: nat)
    requires x in s
    ensures k < |s| && s[k] == x
  {
    if s[0] == x then 0 else 1 + IndexOf(s[1..], x)
  }

  /** Entries are added when absent and deleted when present: what the callers of list.c must keep to. */
  ghost predicate Allowed<T>(head: T, s: seq<T>, op: Op<T>) {
    if op.OpDel? then op.node in s else op.node != head && op.node !in s
  }

  ghost function Applied<T>(s: seq<T>, op: Op<T>): seq<T> {
    match op
    case OpAdd(x) => [x] + s
    case OpAddTail(x) => s + [x]
    case OpDel(x) => if x in s then Removed(s, IndexOf(s, x)) else s
  }

  ghost function Final<T>(s: seq<T>, ops: seq<Op<T>>): seq<T>
    decreases |ops|
  {
    if ops == [] then s else Final(Applied(s, ops[0]), ops[1..])
  }

  lemma FinalTwo<T>(s: seq<T>, a: Op<T>, b: Op<T>)
    ensures Final(s, [a, b]) == Applied(Applied(s, a), b)
  {
    assert [a, b][1..] == [b] && [b][1..] == [];
    assert Final(Applied(s, a), [b]) == Applied(Applied(s, a), b);
  }

  lemma DelUndoesAdd<T>(s: seq<T>, x: T)
    ensures Applied(Applied(s, OpAdd(x)), OpDel(x)) == s
  {
    var front := [x] + s;
    assert IndexOf(front, x) == 0 && Removed(front, 0) == s;
  }

  lemma DelUndoesAddTail<T>(s: seq<T>, x: T)
    requires x !in s
    ensures Applied(Applied(s, OpAddTail(x)), OpDel(x)) == s
  {
    var back := s + [x];
    assert forall k | 0 <= k < |s| :: back[k] == s[k] && s[k] in s;
    assert back[|s|] == x;
    assert IndexOf(back, x) == |s|;
    assert Removed(back, |s|) == s;
  }

  /** What the operations do to the order: adding goes to the ends, and deleting undoes either way of adding. */
  lemma AddsAndDels<T>(s: seq<T>, x: T, y: T)
    requires x !in s
    ensures Final(s, [OpAdd(x), OpAddTail(y)]) == [x] + s + [y]
    ensures Final(s, [OpAdd(x), OpDel(x)]) == s == Final(s, [OpAddTail(x), OpDel(x)])
  {
    FinalTwo(s, OpAdd(x), OpAddTail(y));
    FinalTwo(s, OpAdd(x), OpDel(x));
    FinalTwo(s, OpAddTail(x), OpDel(x));
    DelUndoesAdd(s, x);
    DelUndoesAddTail(s, x);
  }

  ghost predicate AllAllowed<T>(head: T, s: seq<T>, ops: seq<Op<T>>)
    decreases |ops|
  {
    ops == [] || (Allowed(head, s, ops[0]) && AllAllowed(head, Applied(s, ops[0]), ops[1..]))
  }

  /** Any script of allowed operations leaves one well-formed cycle, in the order the script implies. */
  method Run<T>(head: ListHead<T>, ghost s: seq<ListHead<T>>, ops: seq<Op<ListHead<T>>>)
    requires List(head, s) && AllAllowed(head, s, ops)
    modifies head, s, set op | op in ops :: op.node
    ensures List(head, Final(s, ops))
    decreases |ops|
  {
    if ops != [] {
      var op := ops[0];
      assert op in ops;
      match op {
        case OpAdd(x) => Add(x, head, s);
        case OpAddTail(x) => AddTail(x, head, s);
        case OpDel(x) => Del(x, head, s, IndexOf(s, x));
      }
      Run(head, Applied(s, op), ops[1..]);
    }
  }
}
