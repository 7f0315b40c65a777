/** The pairing heap on linked nodes.  A ghost tree says what the nodes stand for; every operation is proved to take
    it to what the functions of `PairingTree` say. */
module PairingHeaps {
  import opened HeapHistory
  import opened Orders
  import opened PairingPotential
  import opened PairingTree
  import opened Results

  class Node<T> {
    var value: T
    var parent: Node?<T>
    var previousSibling: Node?<T>
    var firstChild: Node?<T>
    var nextSibling: Node?<T>

    /** Set by `delete`: a freed node may not be touched again. */
    ghost var freed: bool

    constructor (value: T)
      ensures this.value == value && !freed
      ensures parent == null && previousSibling == null && firstChild == null && nextSibling == null
    {
      this.value := value;
      parent, previousSibling, firstChild, nextSibling := null, null, null, null;
      freed := false;
    }

    ghost method Delete()
      requires !freed
      modifies this`freed
      ensures freed
    {
      freed := true;
    }
  }

  type Shape<T> = Tree<Node<T>, T>

  /** The live nodes reachable from `n` are linked as `t` says: `n` has the given parent and previous sibling, and all
      four links of every node below agree with one another. */
  ghost predicate Linked<T>(t: Shape<T>, n: Node?<T>, parent: Node?<T>, previous: Node?<T>)
    reads Keys(t)
  {
    match t
    case Nil => n == null
    case Bin(x, v, c, s) =>
      && n == x && !x.freed && x.value == v
      && x.parent == parent && x.previousSibling == previous
      && Linked(c, x.firstChild, x, null) && Linked(s, x.nextSibling, parent, x)
  }

  /** Nodes that a tree names have been allocated. */
  lemma {:induction false} KeysAllocated<T>(t: Shape<T>)
    ensures forall n :: n in Keys(t) ==> allocated(n)
  {
    if t.Bin? {
      KeysAllocated(t.child);
      KeysAllocated(t.sibling);
    }
  }

  class PairingHeap<T(!new)> {
    const less: (T, T) -> bool
    var root: Node?<T>
    var size: nat

    ghost var shape: Shape<T>

    /** The comparator calls, and the operations, that have led to this heap. */
    ghost var comparisons: nat
    ghost var history: History<Node<T>, T>

    ghost predicate Valid()
      reads this, Keys(shape)
    {
      && Tracks(history, shape, comparisons, less)
      && StrictWeakOrder(less)
      && IsHeap(shape, less)
      && Linked(shape, root, null, null)
      && size == Size(shape)
    }

    /** The heap as its callers see it: the live handles and their values. */
    ghost function Contents(): map<Node<T>, T>
      reads this
    {
      Entries(shape)
    }

    constructor (less: (T, T) -> bool)
      requires StrictWeakOrder(less)
      ensures Valid() && this.less == less && shape == Nil && history == Fresh
    {
      NothingTracks<Node<T>, T>(less);
      this.less := less;
      root, size := null, 0;
      shape, comparisons, history := Nil, 0, Fresh;
    }

    /** The comparator calls made for a heap are logarithmic in the number of its emplacements: three times so much for
        each emplacement, pop and raise, and nothing for melds. */
    lemma Amortised()
      requires Valid() && Emplacements(history) >= 1
      ensures var h := history;
        Pow(2, comparisons) <= Pow(2 * Emplacements(h), 3 * (Emplacements(h) + Pops(h) + Raises(h)))
    {
      MeldsAreFree(history, less);
    }

    /** Two single trees become one. */
    method MeldNodes(lhs: Node?<T>, rhs: Node?<T>, ghost l: Shape<T>, ghost r: Shape<T>) returns (top: Node?<T>)
      requires Single(l) && Single(r) && Distinct(l) && Distinct(r) && Keys(l) !! Keys(r)
      requires Linked(l, lhs, null, null) && Linked(r, rhs, null, null)
      modifies this`comparisons, Keys(l), Keys(r)
      ensures Linked(Meld(l, r, less), top, null, null)
      ensures comparisons == old(comparisons) + MeldComparisons(l, r)
      ensures comparisons == old(comparisons) + if lhs != null && rhs != null then 1 else 0
    {
      if lhs == null {
        return rhs;
      }
      if rhs == null {
        return lhs;
      }
      var winner, loser := lhs, rhs;
      ghost var w, o := l, r;
      comparisons := comparisons + 1;
      if less(winner.value, loser.value) {
        winner, loser := loser, winner;
        w, o := r, l;
      }
      Attach(winner, loser, w, o);
      assert Meld(l, r, less) == Link(w, o);
      return winner;
    }

    /** The loser becomes the first child of the winner. */
    static method Attach(winner: Node<T>, loser: Node<T>, ghost w: Shape<T>, ghost o: Shape<T>)
      requires w.Bin? && o.Bin? && Single(w) && Single(o) && Distinct(w) && Distinct(o) && Keys(w) !! Keys(o)
      requires Linked(w, winner, null, null) && Linked(o, loser, null, null)
      modifies Keys(w), Keys(o)
      ensures Linked(Link(w, o), winner, null, null)
    {
      winner.parent := null;
      winner.previousSibling := null;
      winner.nextSibling := null;

      loser.parent := winner;
      loser.previousSibling := null;
      loser.nextSibling := winner.firstChild;

      if winner.firstChild != null {
        winner.firstChild.previousSibling := loser;
      }
      winner.firstChild := loser;
      assert Linked(o.child, loser.firstChild, loser, null);
      assert Linked(w.child, loser.nextSibling, winner, loser);
    }

    /** Cut the first tree out of a sibling list. */
    static method Unlink(n: Node<T>, ghost t: Shape<T>, ghost parent: Node?<T>, ghost previous: Node?<T>)
      requires t.Bin? && Distinct(t) && Linked(t, n, parent, previous)
      modifies n
      ensures Linked(Alone(t), n, null, null)
      ensures n.freed == old(n.freed) && n.value == old(n.value) && n.firstChild == old(n.firstChild)
    {
      n.parent := null;
      n.previousSibling := null;
      n.nextSibling := null;
    }

    /** Meld the first two trees of a sibling list, or take the only one. */
    method TakePair(first: Node<T>, ghost t: Shape<T>, ghost parent: Node?<T>, ghost previous: Node?<T>)
      returns (merged: Node<T>, next: Node?<T>, ghost pair: Shape<T>, ghost rest: Shape<T>, ghost second': Node?<T>)
      requires Distinct(t) && Linked(t, first, parent, previous)
      modifies this`comparisons, Keys(t)
      ensures t.Bin? && pair == (if t.sibling.Nil? then Alone(t) else PairOf(t, less))
      ensures rest == if t.sibling.Nil? then Nil else t.sibling.sibling
      ensures Linked(pair, merged, null, null) && Linked(rest, next, parent, second')
      ensures Distinct(pair) && Distinct(rest) && Keys(pair) !! Keys(rest) && Keys(pair) + Keys(rest) == Keys(t)
      ensures comparisons == old(comparisons) + if t.sibling.Nil? then 0 else 1
      ensures Roots(t) == Roots(rest) + if t.sibling.Nil? then 1 else 2
    {
      KeysAllocated(t);
      var second := first.nextSibling;
      next := if second == null then null else second.nextSibling;
      Unlink(first, t, parent, previous);
      merged, pair, rest, second' := first, Alone(t), t.sibling, second;
      if second != null {
        Unlink(second, rest, parent, first);
        pair, rest := PairOf(t, less), rest.sibling;
        MeldKeys(Alone(t), Alone(t.sibling), less);
        merged := MeldNodes(first, second, Alone(t), Alone(t.sibling));
      }
    }

    /** The loop that melds neighbours two by two and threads the results, newest first, on their sibling links. */
    method PairRoots(firstChild: Node?<T>, ghost t: Shape<T>, ghost parent: Node?<T>)
      returns (pairedRoots: Node?<T>, ghost stack: Shape<T>)
      requires Distinct(t) && Linked(t, firstChild, parent, null)
      modifies this`comparisons, Keys(t)
      ensures stack == PairPass(t, Nil, less) && Linked(stack, pairedRoots, null, null)
      ensures Distinct(stack) && Keys(stack) == Keys(t)
      ensures comparisons + Roots(stack) == old(comparisons) + Roots(t)
    {
      KeysAllocated(t);
      pairedRoots := null;
      var current := firstChild;
      ghost var todo, previous: Node?<T> := t, null;
      stack := Nil;
      while current != null
        invariant Linked(todo, current, parent, previous) && Linked(stack, pairedRoots, null, null)
        invariant Distinct(todo) && Distinct(stack) && Keys(todo) !! Keys(stack) && Keys(todo) + Keys(stack) == Keys(t)
        invariant PairPass(todo, stack, less) == PairPass(t, Nil, less)
        invariant comparisons + Roots(todo) + Roots(stack) == old(comparisons) + Roots(t)
        decreases Roots(todo)
      {
        pairedRoots, current, stack, todo, previous := PairTurn(current, pairedRoots, todo, stack, parent, previous);
      }
    }

    /** One turn of the first pass. */
    method PairTurn(
        current: Node<T>, pairedRoots: Node?<T>,
        ghost todo: Shape<T>, ghost stack: Shape<T>, ghost parent: Node?<T>, ghost previous: Node?<T>)
      returns (merged: Node<T>, next: Node?<T>, ghost stack': Shape<T>, ghost rest: Shape<T>, ghost second: Node?<T>)
      requires Linked(todo, current, parent, previous) && Linked(stack, pairedRoots, null, null)
      requires Distinct(todo) && Distinct(stack) && Keys(todo) !! Keys(stack)
      modifies this`comparisons, Keys(todo), Keys(stack)
      ensures Linked(rest, next, parent, second) && Linked(stack', merged, null, null)
      ensures Distinct(rest) && Distinct(stack') && Keys(rest) !! Keys(stack')
      ensures Keys(rest) + Keys(stack') == Keys(todo) + Keys(stack)
      ensures PairPass(rest, stack', less) == PairPass(todo, stack, less)
      ensures comparisons + Roots(rest) + Roots(stack') == old(comparisons) + Roots(todo) + Roots(stack)
      ensures Roots(rest) < Roots(todo)
    {
      KeysAllocated(todo);
      KeysAllocated(stack);
      ghost var pair;
      merged, next, pair, rest, second := TakePair(current, todo, parent, previous);
      StackPair(merged, pairedRoots, pair, stack);
      stack' := pair.(sibling := stack);
    }

    /** Push a tree onto the stack of paired roots. */
    static method StackPair(merged: Node<T>, pairedRoots: Node?<T>, ghost pair: Shape<T>, ghost stack: Shape<T>)
      requires Single(pair) && Distinct(pair) && Distinct(stack) && Keys(pair) !! Keys(stack)
      requires Linked(pair, merged, null, null) && Linked(stack, pairedRoots, null, null)
      modifies Keys(pair), Keys(stack)
      ensures pair.Bin? && Linked(pair.(sibling := stack), merged, null, null)
    {
      merged.nextSibling := pairedRoots;
      if pairedRoots != null {
        pairedRoots.previousSibling := merged;
      }
    }

    /** Take the top tree off the stack of paired roots. */
    static method TakeRoot(n: Node<T>, ghost t: Shape<T>) returns (next: Node?<T>)
      requires Distinct(t) && Linked(t, n, null, null)
      modifies Keys(t)
      ensures t.Bin? && Linked(Alone(t), n, null, null) && Linked(t.sibling, next, null, null)
      ensures Distinct(Alone(t)) && Keys(t) == Keys(Alone(t)) + Keys(t.sibling) && Keys(Alone(t)) !! Keys(t.sibling)
    {
      KeysAllocated(t);
      next := n.nextSibling;
      Unlink(n, t, null, null);
      if next != null {
        next.previousSibling := null;
      }
    }

    /** The loop that empties this stack into one tree. */
    method MeldRoots(pairedRoots: Node?<T>, ghost stack: Shape<T>) returns (result: Node?<T>)
      requires Distinct(stack) && Linked(stack, pairedRoots, null, null)
      modifies this`comparisons, Keys(stack)
      ensures Linked(MeldPass(stack, Nil, less), result, null, null)
      ensures comparisons == old(comparisons) + CombineComparisons(stack)
    {
      KeysAllocated(stack);
      result := null;
      var current := pairedRoots;
      ghost var todo, done: Shape<T> := stack, Nil;
      while current != null
        invariant Linked(todo, current, null, null) && Linked(done, result, null, null)
        invariant Single(done) && Distinct(todo) && Distinct(done) && Keys(todo) !! Keys(done)
        invariant Keys(todo) + Keys(done) == Keys(stack)
        invariant MeldPass(todo, done, less) == MeldPass(stack, Nil, less)
        invariant comparisons + Roots(todo) + (if done.Nil? then 0 else 1) == old(comparisons) + Roots(stack)
        decreases todo
      {
        var next := TakeRoot(current, todo);
        MeldKeys(Alone(todo), done, less);
        result := MeldNodes(current, result, Alone(todo), done);
        done, todo := Meld(Alone(todo), done, less), todo.sibling;
        current := next;
      }
    }

    /** Combine the children of a removed root: both passes together. */
    method CombineChildren(firstChild: Node?<T>, ghost t: Shape<T>, ghost parent: Node?<T>) returns (result: Node?<T>)
      requires Distinct(t) && Linked(t, firstChild, parent, null)
      modifies this`comparisons, Keys(t)
      ensures Linked(Combine(t, less), result, null, null)
      ensures comparisons == old(comparisons) + if t.Nil? then 0 else Roots(t) - 1
      ensures comparisons == old(comparisons) + CombineComparisons(t)
    {
      if firstChild == null {
        return null;
      }
      var pairedRoots;
      ghost var stack;
      pairedRoots, stack := PairRoots(firstChild, t, parent);
      result := MeldRoots(pairedRoots, stack);
      PassesCombine(t, Nil, less);
    }

    method Top() returns (r: Result<T>)
      requires Valid()
      ensures r == if shape.Nil? then Err(OutOfRange) else Ok(shape.value)
      ensures r.Ok? ==>
        && root != null && root in Contents() && Contents()[root] == r.value
        && forall n :: n in Contents() ==> !less(r.value, Contents()[n])
    {
      if root == null {
        return Err(OutOfRange);
      }
      TopIsGreatest(shape, less);
      assert Contents()[shape.key] == shape.value;
      return Ok(root.value);
    }

    method Emplace(value: T) returns (handle: Node<T>)
      requires Valid()
      modifies this, Keys(shape)
      ensures Valid() && fresh(handle) && handle !in old(Contents()) && handle.value == value
      ensures shape == Meld(old(shape), Bin(handle, value, Nil, Nil), less)
      ensures Contents() == old(Contents())[handle := value] && size == old(size) + 1
      ensures comparisons == old(comparisons) + MeldComparisons(old(shape), Bin(handle, value, Nil, Nil))
      ensures history == Emplaced(old(history), handle, value)
      ensures root == if old(root) == null || less(old(root.value), value) then handle else old(root)
    {
      hide Tracks, StrictWeakOrder, Meld, MeldComparisons;
      KeysAllocated(shape);
      handle := new Node(value);
      assert Linked(Bin(handle, value, Nil, Nil), handle, null, null);
      MeldTop(shape, Bin(handle, value, Nil, Nil), less);
      Place(handle, value);
      assert Contents()[handle] == value;
      ValueOf(shape, root, null, null, handle);
    }

    /** Meld a node that stands alone into the heap. */
    method Place(node: Node<T>, ghost value: T)
      requires Valid() && node !in Keys(shape) && Linked(Bin(node, value, Nil, Nil), node, null, null)
      modifies this, Keys(shape), node
      ensures Valid() && shape == Meld(old(shape), Bin(node, value, Nil, Nil), less)
      ensures Contents() == old(Contents())[node := value] && size == old(size) + 1
      ensures comparisons == old(comparisons) + MeldComparisons(old(shape), Bin(node, value, Nil, Nil))
      ensures history == Emplaced(old(history), node, value)
    {
      hide Tracks, IsHeap, Entries, StrictWeakOrder, Meld, MeldComparisons;
      ghost var single := Bin(node, value, Nil, Nil);
      SingletonIsHeap(node, value, less);
      MeldIsHeap(shape, single, less);
      EmplaceTracks(history, shape, comparisons, less, node, value);
      KeysAllocated(shape);
      root := MeldNodes(root, node, shape, single);
      size := size + 1;
      shape := Meld(shape, single, less);
      history := Emplaced(history, node, value);
    }

    /** Removes the root, and only the root, from the heap and frees it. */
    method Pop() returns (r: Result<()>)
      requires Valid()
      modifies this, Keys(shape)
      ensures Valid() && history == Popped(old(history))
      ensures old(shape).Nil? ==> r == Err(OutOfRange) && shape == Nil && comparisons == old(comparisons)
      ensures old(shape).Bin? ==>
        && r == Ok(()) && shape == PairingTree.Pop(old(shape), less) && size == old(size) - 1
        && Contents() == old(Contents()) - {old(root)} && old(root).freed
        && (if old(shape).child.Nil? then root == null
            else root == RootAt(old(shape).child, Winner(old(shape).child, less)).key)
        && comparisons == old(comparisons) + CombineComparisons(old(shape).child)
    {
      hide Tracks, StrictWeakOrder, IsHeap, Entries, Winner, RootAt, Combine, CombineComparisons, Roots;
      PopTracks(history, shape, comparisons, less);
      history := Popped(history);
      if root == null {
        return Err(OutOfRange);
      }
      KeysAllocated(shape);
      PopKeeps(shape, less);
      if shape.child.Bin? { CombineTop(shape.child, less); }
      var oldRoot := root;
      var children := oldRoot.firstChild;
      oldRoot.firstChild := null;
      root := CombineChildren(children, shape.child, oldRoot);
      oldRoot.Delete();
      shape := PairingTree.Pop(shape, less);
      size := size - 1;
      return Ok(());
    }

    method ExtractTop() returns (r: Result<T>)
      requires Valid()
      modifies this, Keys(shape)
      ensures Valid() && history == Popped(old(history))
      ensures old(shape).Nil? ==> r == Err(OutOfRange) && shape == Nil && comparisons == old(comparisons)
      ensures old(shape).Bin? ==>
        && r == Ok(old(shape).value) && shape == PairingTree.Pop(old(shape), less) && size == old(size) - 1
        && Contents() == old(Contents()) - {old(root)} && old(root) in old(Contents()) && r.value == old(Contents())[old(root)]
        && (forall n :: n in old(Contents()) ==> !less(r.value, old(Contents())[n]))
        && comparisons == old(comparisons) + CombineComparisons(old(shape).child)
    {
      hide Tracks;
      if root == null {
        PopTracks(history, shape, comparisons, less);
        history := Popped(history);
        return Err(OutOfRange);
      }
      TopIsGreatest(shape, less);
      var result := root.value;
      var _ := Pop();
      return Ok(result);
    }

    /** Moves every node of `other` into this heap; handles into either heap stay live. */
    method MeldWith(other: PairingHeap<T>)
      requires Valid() && other.Valid() && other.less == less
      requires other != this ==> Keys(shape) !! Keys(other.shape)
      modifies this, other, Keys(shape), Keys(other.shape)
      ensures Valid() && other.Valid()
      ensures other == this || old(other.shape).Nil? ==>
        shape == old(shape) && comparisons == old(comparisons) && history == old(history)
      ensures other != this ==>
        && shape == Meld(old(shape), old(other.shape), less) && other.shape == Nil
        && Contents() == old(Contents()) + old(other.Contents()) && size == old(size) + old(other.size)
      ensures other != this && old(other.shape).Bin? ==>
        && root == (if old(root) == null || less(old(root.value), old(other.root.value)) then old(other.root) else old(root))
        && comparisons == old(comparisons) + old(other.comparisons) + MeldComparisons(old(shape), old(other.shape))
        && history == Melded(old(history), old(other.history)) && other.history == Fresh
    {
      hide Tracks, StrictWeakOrder;
      if this == other || other.root == null {
        assert Meld(shape, Nil, less) == shape;
        assert Contents() + Entries(Tree<Node<T>, T>.Nil) == Contents();
        return;
      }
      MeldTop(shape, other.shape, less);
      TakeAll(other);
    }

    method TakeAll(other: PairingHeap<T>)
      requires Valid() && other.Valid() && other.less == less && other != this && other.root != null
      requires Keys(shape) !! Keys(other.shape)
      modifies this, other, Keys(shape), Keys(other.shape)
      ensures Valid() && other.Valid() && other.shape == Nil && other.history == Fresh
      ensures shape == Meld(old(shape), old(other.shape), less) && size == old(size) + old(other.size)
      ensures Contents() == old(Contents()) + old(other.Contents())
      ensures comparisons == old(comparisons) + old(other.comparisons) + MeldComparisons(old(shape), old(other.shape))
      ensures history == Melded(old(history), old(other.history))
    {
      hide Tracks, IsHeap, Entries, StrictWeakOrder, Meld, MeldComparisons, Linked, Distinct;
      MeldIsHeap(shape, other.shape, less);
      MeldTracks(history, shape, comparisons, other.history, other.shape, other.comparisons, less);
      KeysAllocated(shape);
      KeysAllocated(other.shape);
      root := MeldNodes(root, other.root, shape, other.shape);
      size := size + other.size;
      shape := Meld(shape, other.shape, less);
      comparisons := comparisons + other.comparisons;
      history := Melded(history, other.history);
      other.Forget();
    }

    /** What is left of a heap whose nodes have moved elsewhere. */
    method Forget()
      requires StrictWeakOrder(less)
      modifies this
      ensures Valid() && shape == Nil && history == Fresh
    {
      NothingTracks<Node<T>, T>(less);
      root := null;
      size := 0;
      shape, comparisons, history := Nil, 0, Fresh;
    }

    /** Sever a node from its parent and siblings.  The contract speaks of links alone: `Unhook` says what they mean. */
    static method DetachFromParent(node: Node<T>, ghost nodes: set<Node<T>>)
      requires node in nodes && node.parent != node && (node.parent != null ==> node.parent in nodes)
      requires node.previousSibling != node && (node.previousSibling != null ==> node.previousSibling in nodes)
      requires node.nextSibling != node && (node.nextSibling != null ==> node.nextSibling in nodes)
      modifies nodes
      ensures Snapshot(nodes) ==
        if old(node.parent) == null then old(Snapshot(nodes)) else Unhooked(old(Snapshot(nodes)), node)
    {
      var parent := node.parent;
      if parent == null {
        return;
      }
      if node.previousSibling != null {
        node.previousSibling.nextSibling := node.nextSibling;
      } else {
        parent.firstChild := node.nextSibling;
      }
      if node.nextSibling != null {
        node.nextSibling.previousSibling := node.previousSibling;
      }
      node.parent := null;
      node.previousSibling := null;
      node.nextSibling := null;
    }

    static method SetValue(node: Node<T>, newValue: T, ghost t: Shape<T>, ghost root: Node?<T>)
      requires Distinct(t) && Linked(t, root, null, null) && node in Keys(t)
      modifies node`value
      ensures node.value == newValue && node in Keys(t) && Linked(Assign(t, node, newValue), root, null, null)
    {
      ghost var links := Snapshot(Keys(t));
      LinkedSnapshot(t, Keys(t), root, null, null);
      node.value := newValue;
      AssignLinked(t, links, root, null, null, node, newValue);
      AssignKeys(t, node, newValue);
      assert Snapshot(Keys(t)) == links[node := links[node].(value := newValue)];
      LinkedSnapshot(Assign(t, node, newValue), Keys(t), root, null, null);
    }

    /** Move a node whose value has been raised to where it may stand. */
    method Reposition(node: Node<T>, newValue: T, ghost t: Shape<T>)
      requires Single(t) && Distinct(t) && node in Keys(t) && Linked(Assign(t, node, newValue), root, null, null)
      requires node.value == newValue && root == t.key
      requires node != root ==> node.parent != null && node.parent.value == Above(t.child, node, t.value)
      modifies this`root, this`comparisons, Keys(t)
      ensures Linked(Raise(t, node, newValue, less), root, null, null)
      ensures comparisons == old(comparisons) +
        if node == t.key then 0 else if !less(Above(t.child, node, t.value), newValue) then 1 else 2
    {
      hide Raise, Assign, Detach, Subtree, Linked, LinkedIn, Meld, Keys;
      ghost var t' := Assign(t, node, newValue);
      RaiseCases(t, node, newValue, less);
      RaiseEntries(t, node, newValue, less);
      if node == root || node.parent == null {
        return;
      }
      comparisons := comparisons + 1;
      if !less(node.parent.value, node.value) {
        return;
      }
      ghost var links := Snapshot(Keys(t));
      LinkedSnapshot(t', Keys(t), root, null, null);
      Neighbours(t', links, root, null, null, node);
      DetachFromParent(node, Keys(t));
      Unhook(t', links, root, null, null, node);
      DetachKeys(t', node);
      LinkedSnapshot(Detach(t', node), Keys(t), root, null, null);
      LinkedSnapshot(Subtree(t', node), Keys(t), node, null, null);
      var top := MeldNodes(root, node, Detach(t', node), Subtree(t', node));
      assert Linked(Raise(t, node, newValue, less), top, null, null);
      root := top;
    }

    /** Gives a live node a value that is not lower in priority and restores the heap order. */
    method IncreasePriority(handle: Node?<T>, newValue: T) returns (r: Result<()>)
      requires Valid()
      requires handle != null ==> handle in Keys(shape)
      modifies this, Keys(shape)
      ensures Valid() && size == old(size)
      ensures handle == null ==>
        r == Err(InvalidArgument) && shape == old(shape) && comparisons == old(comparisons) && history == old(history)
      ensures handle != null ==> var node: Node<T> := handle;
        && (if less(newValue, old(Lookup(shape, node)))
            then r == Err(InvalidArgument) && shape == old(shape)
            else r == Ok(()) && shape == Raise(old(shape), node, newValue, less)
                 && Contents() == old(Contents())[node := newValue])
        && comparisons == old(comparisons) + RaiseComparisons(old(shape), node, newValue, less)
        && history == Raised(old(history), node, newValue)
    {
      hide Tracks;
      if handle == null {
        return Err(InvalidArgument);
      }
      var node: Node<T> := handle;
      RaiseTracks(history, shape, comparisons, less, node, newValue);
      history := Raised(history, node, newValue);
      KeysAllocated(shape);
      ValueOf(shape, root, null, null, node);
      comparisons := comparisons + 1;
      if less(newValue, node.value) {
        return Err(InvalidArgument);
      }
      RaiseIsHeap(shape, node, newValue, less);
      RaiseEntries(shape, node, newValue, less);
      if node != root { ParentOf(shape.child, root.firstChild, root, null, node); }

      SetValue(node, newValue, shape, root);
      Reposition(node, newValue, shape);
      shape := Raise(shape, node, newValue, less);
      return Ok(());
    }

    /** Frees a whole tree without recursion: first children are lifted in front of their parents until a node without
        children can be freed.  No freed node is looked at again. */
    static method DestroyTree(root: Node?<T>, ghost t: Shape<T>) returns (ghost order: seq<Node<T>>, ghost rounds: nat)
      requires Distinct(t) && Linked(t, root, null, null)
      modifies Keys(t)
      ensures order == Postorder(t) && (forall n :: n in Keys(t) ==> n.freed)
      ensures rounds == Size(t) + Hanging(t) && (Single(t) && t.Bin? ==> rounds == 2 * Size(t) - 1)
    {
      hide Postorder, Hanging, Size, Linked;
      if Single(t) { HangingInHeap(t); }
      KeysAllocated(t);
      LinkedIsChained(t, root, null, null);
      EmptyPostorder();
      var current := root;
      ghost var todo := t;
      order, rounds := [], 0;
      while current != null
        invariant Chained(todo, current) && Distinct(todo) && Keys(todo) <= Keys(t)
        invariant order + Postorder(todo) == Postorder(t)
        invariant forall n :: n in Keys(t) && n !in Keys(todo) ==> n.freed
        invariant rounds + Size(todo) + Hanging(todo) == Size(t) + Hanging(t)
        decreases Size(todo) + Hanging(todo)
      {
        rounds := rounds + 1;
        assert !current.freed;
        if current.firstChild != null {
          LiftKeys(todo);
          LiftPostorder(todo);
          current := LiftChild(current, todo);
          todo := Lift(todo);
          continue;
        }
        FreeFirst(todo);
        var next := current.nextSibling;
        current.Delete();
        order := order + [current];
        current, todo := next, todo.sibling;
      }
    }

    static lemma EmptyPostorder()
      ensures Postorder<Node<T>, T>(Nil) == [] && Size<Node<T>, T>(Nil) == Hanging<Node<T>, T>(Nil) == 0
    {}

    /** Put the first child of `current` in front of it. */
    static method LiftChild(current: Node<T>, ghost t: Shape<T>) returns (child: Node<T>)
      requires Distinct(t) && Chained(t, current) && current.firstChild != null
      modifies Keys(t)`parent, Keys(t)`previousSibling, Keys(t)`firstChild, Keys(t)`nextSibling
      ensures t.Bin? && t.child.Bin? && Chained(Lift(t), child)
    {
      KeysAllocated(t);
      child := current.firstChild;
      ghost var c, s := t.child, t.child.sibling;
      assert Chained(c, child) && Chained(s, child.nextSibling);
      assert Keys(s) <= Keys(c) <= Keys(t) && !child.freed;
      assert Distinct(c) && Distinct(s) && current !in Keys(s) && child !in Keys(s);
      assert s.Bin? ==> s.key !in Keys(s.child) && s.key !in Keys(s.sibling);
      current.firstChild := child.nextSibling;
      if current.firstChild != null {
        assert !current.firstChild.freed;
        current.firstChild.previousSibling := null;
      }
      assert Chained(s, current.firstChild);
      child.parent := null;
      child.previousSibling := null;
      child.nextSibling := current;
      assert Chained(s, current.firstChild);
    }

    /** Frees every node; all handles die. */
    method Clear()
      requires Valid()
      modifies this, Keys(shape)
      ensures Valid() && shape == Nil && size == 0 && Contents() == map[] && comparisons == old(comparisons)
      ensures history == Cleared(old(history))
      ensures forall n :: n in old(Contents()) ==> n.freed
    {
      hide Tracks;
      ClearTracks(history, shape, comparisons, less);
      history := Cleared(history);
      ghost var order, rounds := DestroyTree(root, shape);
      root := null;
      size := 0;
      shape := Nil;
    }
  }

  /** The live nodes reachable from `n` through child and sibling links alone, as `t` says. */
  ghost predicate Chained<T>(t: Shape<T>, n: Node?<T>)
    reads Keys(t)
  {
    match t
    case Nil => n == null
    case Bin(x, _, c, s) => n == x && !x.freed && Chained(c, x.firstChild) && Chained(s, x.nextSibling)
  }

  lemma {:induction false} LinkedIsChained<T>(t: Shape<T>, n: Node?<T>, parent: Node?<T>, previous: Node?<T>)
    requires Linked(t, n, parent, previous)
    ensures Chained(t, n)
  {
    if t.Bin? {
      LinkedIsChained(t.child, t.key.firstChild, t.key, null);
      LinkedIsChained(t.sibling, t.key.nextSibling, parent, t.key);
    }
  }

  // ---------- Link surgery, seen from the tree ----------

  /** The handle of a node leads to its value. */
  lemma {:induction false} ValueOf<T>(t: Shape<T>, n: Node?<T>, parent: Node?<T>, previous: Node?<T>, x: Node<T>)
    requires Linked(t, n, parent, previous) && x in Keys(t)
    ensures x.value == Lookup(t, x) && !x.freed
  {
    if x == t.key {
    } else if x in Keys(t.child) {
      ValueOf(t.child, t.key.firstChild, t.key, null, x);
    } else {
      ValueOf(t.sibling, t.key.nextSibling, parent, t.key, x);
    }
  }

  /** The parent link of a node below `parent` leads to the value the heap order compares it with. */
  lemma {:induction false} ParentOf<T>(t: Shape<T>, n: Node?<T>, parent: Node<T>, previous: Node?<T>, x: Node<T>)
    requires Linked(t, n, parent, previous) && x in Keys(t) && Distinct(t) && parent !in Keys(t)
    ensures x.parent != null && x.parent != x && x.parent in Keys(t) + {parent}
    ensures x.parent.value == Above(t, x, parent.value)
  {
    if x == t.key {
    } else if x in Keys(t.child) {
      ParentOf(t.child, t.key.firstChild, t.key, null, x);
    } else {
      ParentOf(t.sibling, t.key.nextSibling, parent, t.key, x);
    }
  }

  // ---------- Link surgery on snapshots of the links ----------

  datatype Links<T> = Links(
    value: T, parent: Node?<T>, previousSibling: Node?<T>, firstChild: Node?<T>, nextSibling: Node?<T>, freed: bool)

  ghost function Snapshot<T>(nodes: set<Node<T>>): map<Node<T>, Links<T>>
    reads nodes
  {
    map n | n in nodes :: Links(n.value, n.parent, n.previousSibling, n.firstChild, n.nextSibling, n.freed)
  }

  /** `Linked`, of recorded links. */
  ghost predicate LinkedIn<T>(
      t: Shape<T>, links: map<Node<T>, Links<T>>, n: Node?<T>, parent: Node?<T>, previous: Node?<T>)
  {
    match t
    case Nil => n == null
    case Bin(x, v, c, s) =>
      && n == x && x in links && !links[x].freed && links[x].value == v
      && links[x].parent == parent && links[x].previousSibling == previous
      && LinkedIn(c, links, links[x].firstChild, x, null) && LinkedIn(s, links, links[x].nextSibling, parent, x)
  }

  lemma {:induction false} LinkedSnapshot<T>(
      t: Shape<T>, nodes: set<Node<T>>, n: Node?<T>, parent: Node?<T>, previous: Node?<T>)
    requires Keys(t) <= nodes
    ensures Linked(t, n, parent, previous) <==> LinkedIn(t, Snapshot(nodes), n, parent, previous)
  {
    if t.Bin? {
      LinkedSnapshot(t.child, nodes, t.key.firstChild, t.key, null);
      LinkedSnapshot(t.sibling, nodes, t.key.nextSibling, parent, t.key);
    }
  }

  /** Only the links of a tree's own nodes matter to it. */
  lemma {:induction false} LinkedFrame<T>(
      t: Shape<T>, links: map<Node<T>, Links<T>>, links': map<Node<T>, Links<T>>,
      n: Node?<T>, parent: Node?<T>, previous: Node?<T>)
    requires LinkedIn(t, links, n, parent, previous)
    requires forall k :: k in Keys(t) && k in links ==> k in links' && links'[k] == links[k]
    ensures LinkedIn(t, links', n, parent, previous)
  {
    if t.Bin? {
      LinkedFrame(t.child, links, links', links[t.key].firstChild, t.key, null);
      LinkedFrame(t.sibling, links, links', links[t.key].nextSibling, parent, t.key);
    }
  }

  lemma {:induction false} AssignLinked<T>(
      t: Shape<T>, links: map<Node<T>, Links<T>>, n: Node?<T>, parent: Node?<T>, previous: Node?<T>, x: Node<T>, v: T)
    requires LinkedIn(t, links, n, parent, previous) && Distinct(t) && x in Keys(t) && x in links
    ensures LinkedIn(Assign(t, x, v), links[x := links[x].(value := v)], n, parent, previous)
  {
    var y, links' := t.key, links[x := links[x].(value := v)];
    if x in Keys(t.child) {
      AssignLinked(t.child, links, links[y].firstChild, y, null, x, v);
    } else {
      LinkedFrame(t.child, links, links', links[y].firstChild, y, null);
    }
    if x in Keys(t.sibling) {
      AssignLinked(t.sibling, links, links[y].nextSibling, parent, y, x, v);
    } else {
      LinkedFrame(t.sibling, links, links', links[y].nextSibling, parent, y);
    }
  }

  /** The links once `x` has been unhooked: its neighbours are joined to each other and its own links cleared. */
  ghost function Unhooked<T>(links: map<Node<T>, Links<T>>, x: Node<T>): map<Node<T>, Links<T>>
    requires x in links
  {
    var previous, next, parent := links[x].previousSibling, links[x].nextSibling, links[x].parent;
    map n | n in links ::
      if n == x then links[x].(parent := null, previousSibling := null, nextSibling := null)
      else
        var l := links[n];
        l.(nextSibling := if n == previous then next else l.nextSibling,
           previousSibling := if n == next then previous else l.previousSibling,
           firstChild := if n == parent && previous == null then next else l.firstChild)
  }

  /** A node's links stay within its own sibling list, and only the first root has the outer neighbours. */
  lemma {:induction false} Neighbours<T>(
      t: Shape<T>, links: map<Node<T>, Links<T>>, n: Node?<T>, parent: Node?<T>, previous: Node?<T>, x: Node<T>)
    requires LinkedIn(t, links, n, parent, previous) && Distinct(t) && x in Keys(t)
    requires (parent == null || parent !in Keys(t)) && (previous == null || previous !in Keys(t))
    ensures x in links
    ensures links[x].previousSibling != x && links[x].nextSibling != x && links[x].parent != x
    ensures x == t.key ==> links[x].previousSibling == previous && links[x].parent == parent
    ensures x != t.key && links[x].previousSibling == null ==> links[x].parent != null && links[x].parent in Keys(t)
    ensures x != t.key && links[x].previousSibling != null ==> links[x].previousSibling in Keys(t)
    ensures links[x].nextSibling != null ==> links[x].nextSibling in Keys(t)
    ensures x !in Keys(t.sibling) && x != t.key ==> links[x].parent != null && links[x].parent in Keys(t)
    ensures links[x].parent == parent || (links[x].parent != null && links[x].parent in Keys(t))
  {
    if x == t.key {
    } else if x in Keys(t.child) {
      Neighbours(t.child, links, links[t.key].firstChild, t.key, null, x);
    } else {
      Neighbours(t.sibling, links, links[t.key].nextSibling, parent, t.key, x);
    }
  }

  /** Unhooking any node but the first root leaves two well-linked trees: the rest, and the node's subtree. */
  lemma {:induction false} Unhook<T>(
      t: Shape<T>, links: map<Node<T>, Links<T>>, n: Node?<T>, parent: Node?<T>, previous: Node?<T>, x: Node<T>)
    requires LinkedIn(t, links, n, parent, previous) && Distinct(t) && x in Keys(t) && x != t.key && x in links
    requires (parent == null || parent !in Keys(t)) && (previous == null || previous !in Keys(t))
    ensures LinkedIn(Detach(t, x), Unhooked(links, x), n, parent, previous)
    ensures LinkedIn(Subtree(t, x), Unhooked(links, x), x, null, null)
  {
    hide Unhooked;
    var y, c, s, links' := t.key, t.child, t.sibling, Unhooked(links, x);
    UnhookedLinks(links, x);
    Neighbours(t, links, n, parent, previous, x);
    if x in Keys(c) {
      Neighbours(c, links, links[y].firstChild, y, null, x);
      UnhookedFrame(s, links, links[y].nextSibling, parent, y, x);
      if x == c.key { UnhookFirst(c, links, x, y, null); } else { Unhook(c, links, links[y].firstChild, y, null, x); }
    } else {
      Neighbours(s, links, links[y].nextSibling, parent, y, x);
      UnhookedFrame(c, links, links[y].firstChild, y, null, x);
      if x == s.key { UnhookFirst(s, links, x, parent, y); } else { Unhook(s, links, links[y].nextSibling, parent, y, x); }
    }
  }

  /** Unhooking the first root of a list hands its outer neighbour on to the next root. */
  lemma UnhookFirst<T>(
      t: Shape<T>, links: map<Node<T>, Links<T>>, x: Node<T>, parent: Node?<T>, previous: Node?<T>)
    requires t.Bin? && x == t.key && LinkedIn(t, links, x, parent, previous) && Distinct(t)
    requires (parent == null || parent !in Keys(t)) && (previous == null || previous !in Keys(t))
    ensures LinkedIn(t.sibling, Unhooked(links, x), links[x].nextSibling, parent, previous)
    ensures LinkedIn(Alone(t), Unhooked(links, x), x, null, null)
  {
    hide Unhooked;
    var s := t.sibling;
    UnhookedLinks(links, x);
    UnhookedFrame(t.child, links, links[x].firstChild, x, null, x);
    if s.Bin? {
      assert Keys(s.child) <= Keys(s) <= Keys(t) && Keys(s.sibling) <= Keys(s);
      UnhookSecond(s, links, x, parent, previous);
    }
  }

  lemma UnhookSecond<T>(
      s: Shape<T>, links: map<Node<T>, Links<T>>, x: Node<T>, parent: Node?<T>, previous: Node?<T>)
    requires s.Bin? && LinkedIn(s, links, s.key, parent, x) && Distinct(s) && x in links && x !in Keys(s)
    requires links[x].nextSibling == s.key && links[x].previousSibling == previous && links[x].parent == parent
    requires (parent == null || parent !in Keys(s)) && (previous == null || previous !in Keys(s))
    ensures LinkedIn(s, Unhooked(links, x), s.key, parent, previous)
  {
    hide Unhooked;
    var y := s.key;
    UnhookedLinks(links, x);
    UnhookedFrame(s.child, links, links[y].firstChild, y, null, x);
    UnhookedFrame(s.sibling, links, links[y].nextSibling, parent, y, x);
  }

  /** `Unhooked`, link by link. */
  lemma UnhookedLinks<T>(links: map<Node<T>, Links<T>>, x: Node<T>)
    requires x in links
    ensures var links', previous, next, parent :=
        Unhooked(links, x), links[x].previousSibling, links[x].nextSibling, links[x].parent;
      && links'.Keys == links.Keys
      && links'[x] == links[x].(parent := null, previousSibling := null, nextSibling := null)
      && (forall n :: n in links && n != x && n != previous && n != next && n != parent ==> links'[n] == links[n])
      && (forall n :: n in links && n != x ==>
            && links'[n].value == links[n].value && links'[n].freed == links[n].freed && links'[n].parent == links[n].parent
            && links'[n].nextSibling == (if n == previous then next else links[n].nextSibling)
            && links'[n].previousSibling == (if n == next then previous else links[n].previousSibling)
            && links'[n].firstChild == if n == parent && previous == null then next else links[n].firstChild)
  {}

  /** A tree away from `x` and its neighbours does not notice that `x` is unhooked. */
  lemma UnhookedFrame<T>(
      t: Shape<T>, links: map<Node<T>, Links<T>>, n: Node?<T>, parent: Node?<T>, previous: Node?<T>, x: Node<T>)
    requires LinkedIn(t, links, n, parent, previous) && x in links && x !in Keys(t)
    requires forall m :: m in Keys(t) ==>
      m != links[x].previousSibling && m != links[x].nextSibling && (m != links[x].parent || links[x].previousSibling != null)
    ensures LinkedIn(t, Unhooked(links, x), n, parent, previous)
  {
    LinkedFrame(t, links, Unhooked(links, x), n, parent, previous);
  }
}
