/** An intrusive LIFO: the list is threaded through a hook inside each element, so the container
    owns nothing but the pointer to the top. */
module IntrusiveStack {

  class Node<T> {
    var next: Node?<T>  // the hook, managed by the stack
    var value: T

    constructor (value: T)
      ensures this.value == value && next == null
    {
      this.value := value;
      next := null;
    }
  }

  function First<T>(s: seq<Node<T>>): Node?<T> {
    if s == [] then null else s[0]
  }

  function Members<T>(s: seq<Node<T>>): set<Node<T>> {
    set n | n in s
  }

  /** Following the hooks from `top` visits exactly the nodes of `s`, in order, and then ends. */
  ghost predicate Chain<T>(top: Node?<T>, s: seq<Node<T>>)
    reads Members(s)`next
  {
    top == First(s) && forall i :: 0 <= i < |s| ==> s[i].next == First(s[i + 1..])
  }

  /** A chain never visits a node twice: it cannot contain a cycle. */
  lemma ChainIsAcyclic<T>(top: Node?<T>, s: seq<Node<T>>)
    requires Chain(top, s)
    ensures forall i, j :: 0 <= i < j < |s| ==> s[i] != s[j]
  {
    forall i, j | 0 <= i < j < |s|
      ensures s[i] != s[j]
    {
      NoTwins(top, s, i, j);
    }
  }

  /** Were two positions the same node, their successors would be too, up to the end of the chain. */
  lemma {:induction false} NoTwins<T>(top: Node?<T>, s: seq<Node<T>>, i: nat, j: nat)
    requires Chain(top, s) && i < j < |s|
    ensures s[i] != s[j]
    decreases |s| - j
  {
    assert s[i].next == s[i + 1];
    if j + 1 < |s| {
      NoTwins(top, s, i + 1, j + 1);
      assert s[j].next == s[j + 1];
    }
  }

  /** The heap determines the contents: there is only one chain from a given top. */
  lemma {:induction false} ChainIsUnique<T>(top: Node?<T>, a: seq<Node<T>>, b: seq<Node<T>>)
    requires Chain(top, a) && Chain(top, b)
    ensures a == b
    decreases |a|
  {
    if a == [] || b == [] {
    } else {
      assert Chain(a[0].next, a[1..]) by { ChainTail(top, a); }
      assert Chain(b[0].next, b[1..]) by { ChainTail(top, b); }
      ChainIsUnique(a[0].next, a[1..], b[1..]);
      assert a == [a[0]] + a[1..] && b == [b[0]] + b[1..];
    }
  }

  lemma ChainTail<T>(top: Node?<T>, s: seq<Node<T>>)
    requires Chain(top, s) && s != []
    ensures Chain(s[0].next, s[1..])
  {
    forall i | 0 <= i < |s| - 1
      ensures s[1..][i].next == First(s[1..][i + 1..])
    {
      assert s[1..][i + 1..] == s[i + 2..];
    }
  }

  datatype Operation<T> = Push(node: Node<T>) | TryPop

  /** The mathematical stack: contents after one operation. */
  function Applied<T>(s: seq<Node<T>>, op: Operation<T>): seq<Node<T>> {
    match op
    case Push(node) => [node] + s
    case TryPop => if s == [] then [] else s[1..]
  }

  /** A node may be pushed only while it is in no stack. */
  predicate Allowed<T>(s: seq<Node<T>>, ops: seq<Operation<T>>)
    decreases |ops|
  {
    ops == [] ||
    ((ops[0].Push? ==> ops[0].node !in s) && Allowed(Applied(s, ops[0]), ops[1..]))
  }

  function AppliedAll<T>(s: seq<Node<T>>, ops: seq<Operation<T>>): seq<Node<T>>
    decreases |ops|
  {
    if ops == [] then s else AppliedAll(Applied(s, ops[0]), ops[1..])
  }

  /** What the pops of a run return, in order. */
  function Popped<T>(s: seq<Node<T>>, ops: seq<Operation<T>>): seq<Node?<T>>
    decreases |ops|
  {
    if ops == [] then []
    else (if ops[0].TryPop? then [First(s)] else []) + Popped(Applied(s, ops[0]), ops[1..])
  }

  /** A run can be cut anywhere. */
  lemma {:induction false} AppliedConcat<T>(s: seq<Node<T>>, a: seq<Operation<T>>, b: seq<Operation<T>>)
    ensures AppliedAll(s, a + b) == AppliedAll(AppliedAll(s, a), b)
    ensures Popped(s, a + b) == Popped(s, a) + Popped(AppliedAll(s, a), b)
    ensures Allowed(s, a + b) <==> Allowed(s, a) && Allowed(AppliedAll(s, a), b)
    decreases |a|
  {
    hide Applied, First;
    if a == [] {
      assert a + b == b && [] + Popped(s, b) == Popped(s, b);
    } else {
      assert (a + b)[1..] == a[1..] + b;
      AppliedConcat(Applied(s, a[0]), a[1..], b);
      var now := if a[0].TryPop? then [First(s)] else [];
      Joined(now, Popped(Applied(s, a[0]), a[1..]), Popped(AppliedAll(s, a), b));
    }
  }

  lemma AppliedOne<T>(s: seq<Node<T>>, op: Operation<T>)
    ensures AppliedAll(s, [op]) == Applied(s, op)
    ensures Popped(s, [op]) == if op.TryPop? then [First(s)] else []
    ensures Allowed(s, [op]) <==> (op.Push? ==> op.node !in s)
  {
    assert [op][1..] == [];
  }

  function Reversed<T>(nodes: seq<Node<T>>): (r: seq<Node<T>>)
    ensures |r| == |nodes| && forall i :: 0 <= i < |r| ==> r[i] == nodes[|nodes| - 1 - i]
  {
    seq(|nodes|, i requires 0 <= i < |nodes| => nodes[|nodes| - 1 - i])
  }

  function Pushes<T>(nodes: seq<Node<T>>): (ops: seq<Operation<T>>)
    ensures |ops| == |nodes| && forall i :: 0 <= i < |ops| ==> ops[i] == Push(nodes[i])
  {
    seq(|nodes|, i requires 0 <= i < |nodes| => Push(nodes[i]))
  }

  function Pops<T>(n: nat): (ops: seq<Operation<T>>)
    ensures |ops| == n && forall i :: 0 <= i < n ==> ops[i] == TryPop
  {
    seq(n, _ => TryPop)
  }

  lemma Joined<A>(a: seq<A>, b: seq<A>, c: seq<A>)
    ensures a + b + c == a + (b + c)
  {}

  /** Distinct nodes may be pushed on a stack that holds none of them; they lie there last first. */
  lemma {:induction false} PushedInOrder<T>(s: seq<Node<T>>, nodes: seq<Node<T>>)
    requires forall i :: 0 <= i < |nodes| ==> nodes[i] !in s
    requires forall i, j :: 0 <= i < j < |nodes| ==> nodes[i] != nodes[j]
    ensures Allowed(s, Pushes(nodes)) && Popped(s, Pushes(nodes)) == []
    ensures AppliedAll(s, Pushes(nodes)) == Reversed(nodes) + s
    decreases |nodes|
  {
    if nodes == [] {
      assert Reversed(nodes) + s == s;
    } else {
      hide AppliedAll, Popped, Allowed;
      var most, last := nodes[..|nodes| - 1], nodes[|nodes| - 1];
      PushedInOrder(s, most);
      AppliedConcat(s, Pushes(most), [Push(last)]);
      AppliedOne(Reversed(most) + s, Push(last));
      assert Pushes(nodes) == Pushes(most) + [Push(last)];
      forall i | 0 <= i < |Reversed(most) + s|
        ensures (Reversed(most) + s)[i] != last
      {
        if i >= |most| {
          assert (Reversed(most) + s)[i] in s;
        }
      }
      assert Reversed(nodes) == [last] + Reversed(most);
      Joined([last], Reversed(most), s);
    }
  }

  /** As many pops as there are nodes above s return them from the top down, and leave s. */
  lemma {:induction false} PoppedInOrder<T>(above: seq<Node<T>>, s: seq<Node<T>>)
    ensures Allowed(above + s, Pops(|above|)) && AppliedAll(above + s, Pops(|above|)) == s
    ensures |Popped(above + s, Pops(|above|))| == |above|
    ensures forall i :: 0 <= i < |above| ==> Popped(above + s, Pops(|above|))[i] == above[i]
    decreases |above|
  {
    if above == [] {
      assert above + s == s;
    } else {
      assert Pops<T>(|above|)[1..] == Pops<T>(|above| - 1);
      assert (above + s)[1..] == above[1..] + s;
      PoppedInOrder(above[1..], s);
    }
  }

  /** Last in, first out: nodes pushed one by one come back in reverse, and leave the stack as it was. */
  lemma LastInFirstOut<T>(s: seq<Node<T>>, nodes: seq<Node<T>>)
    requires forall i :: 0 <= i < |nodes| ==> nodes[i] !in s
    requires forall i, j :: 0 <= i < j < |nodes| ==> nodes[i] != nodes[j]
    ensures var ops := Pushes(nodes) + Pops(|nodes|);
      Allowed(s, ops) && AppliedAll(s, ops) == s && |Popped(s, ops)| == |nodes| &&
      forall i :: 0 <= i < |nodes| ==> Popped(s, ops)[i] == nodes[|nodes| - 1 - i]
  {
    hide AppliedAll, Popped, Allowed;
    PushedInOrder(s, nodes);
    PoppedInOrder(Reversed(nodes), s);
    AppliedConcat(s, Pushes(nodes), Pops(|nodes|));
    var popped := Popped(Reversed(nodes) + s, Pops(|nodes|));
    assert [] + popped == popped;
  }

  /** A pop of an empty stack returns null and leaves it empty. */
  lemma PopOfEmpty<T>()
    ensures AppliedAll<T>([], [TryPop]) == [] && Popped<T>([], [TryPop]) == [null] && Allowed<T>([], [TryPop])
  {
    AppliedOne<T>([], TryPop);
  }

  class Stack<T> {
    var top_: Node?<T>
    ghost var contents: seq<Node<T>>

    ghost predicate Valid()
      reads this, Members(contents)`next
    {
      Chain(top_, contents)
    }

    constructor ()
      ensures Valid() && contents == []
    {
      top_ := null;
      contents := [];
    }

    /** Changes no hook but that of the node pushed. Pushing a node that is already in the stack
        is the one way to break it: afterwards no finite chain starts at the top. */
    method Push(node: Node<T>)
      requires Valid()
      modifies this, node`next
      ensures top_ == node && node.next == old(top_)
      ensures contents == [node] + old(contents)
      ensures node !in old(contents) <==> exists s :: Chain(top_, s)
      ensures node !in old(contents) <==> Valid()
    {
      ghost var before := contents;
      ChainIsAcyclic(top_, contents);
      node.next := top_;
      top_ := node;
      contents := [node] + contents;
      if node !in before {
        PushedChain(node, before);
      } else {
        var k :| 0 <= k < |before| && before[k] == node;
        forall s
          ensures !Chain(top_, s)
        {
          LoopHasNoChain(node, before[..k + 1], s);
        }
      }
    }

    method TryPop() returns (node: Node?<T>)
      requires Valid()
      modifies this
      ensures Valid()
      ensures node == First(old(contents)) && contents == Applied(old(contents), Operation.TryPop)
    {
      node := top_;
      if node != null {
        ChainTail(top_, contents);
        top_ := top_.next;
        contents := contents[1..];
      }
    }

    lemma TopIsFirst()
      requires Valid()
      ensures top_ == First(contents)
    {}

    method Top() returns (node: Node?<T>)
      requires Valid()
      ensures node == First(contents)
    {
      node := top_;
    }

    method Empty() returns (empty: bool)
      requires Valid()
      ensures empty <==> contents == []
    {
      empty := top_ == null;
    }

    /** Every sequence of allowed operations behaves as on a mathematical stack. */
    method Run(ops: seq<Operation<T>>, ghost nodes: set<Node<T>>) returns (popped: seq<Node?<T>>)
      requires Valid() && Allowed(contents, ops)
      requires forall i :: 0 <= i < |ops| && ops[i].Push? ==> ops[i].node in nodes
      modifies this, nodes`next
      ensures Valid()
      ensures contents == AppliedAll(old(contents), ops)
      ensures popped == Popped(old(contents), ops)
      decreases |ops|
    {
      popped := [];
      if ops != [] {
        if ops[0].Push? {
          Push(ops[0].node);
        } else {
          var node := TryPop();
          popped := [node];
        }
        var rest := Run(ops[1..], nodes);
        popped := popped + rest;
      }
    }
  }

  lemma PushedChain<T>(node: Node<T>, rest: seq<Node<T>>)
    requires node !in rest && Chain(node.next, rest)
    ensures Chain(node, [node] + rest)
  {
    var s := [node] + rest;
    forall i | 0 <= i < |s|
      ensures s[i].next == First(s[i + 1..])
    {
      assert s[i + 1..] == rest[i..];
      if i > 0 {
        assert s[i] == rest[i - 1];
      }
    }
  }

  /** If `node` hooks to the first of some nodes that lead back to it, no chain starts at it. */
  lemma LoopHasNoChain<T>(node: Node<T>, loop: seq<Node<T>>, s: seq<Node<T>>)
    requires loop != [] && loop[|loop| - 1] == node && node.next == loop[0]
    requires forall i :: 0 <= i < |loop| - 1 ==> loop[i].next == loop[i + 1]
    ensures !Chain(node, s)
  {
    if Chain(node, s) {
      var i := 0;
      while i < |loop| - 1
        invariant 0 <= i < |loop| && i + 1 < |s| && s[i + 1] == loop[i]
      {
        assert s[i + 1].next == First(s[i + 2..]) && loop[i].next == loop[i + 1];
        assert s[i + 2..] != [];
        i := i + 1;
      }
      ChainIsAcyclic(node, s);
      assert false;
    }
  }
}
