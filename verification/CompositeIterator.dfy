/** Stack iterators over component trees: crash/composit_iterator.h and crash/Component.C.

    A pair of child iterators, the position and the end, is a frame: the children and the
    position among them. */
module CompositeIterators {

  import opened Basics

  datatype Tree = Node(id: int, children: seq<Tree>)

  /* ---- recursive orders ---- */

  function Pre(t: Tree): seq<Tree> {
    [t] + PreForest(t.children)
  }

  function PreForest(ts: seq<Tree>): seq<Tree> {
    if ts == [] then [] else Pre(ts[0]) + PreForest(ts[1..])
  }

  function Post(t: Tree): seq<Tree> {
    PostForest(t.children) + [t]
  }

  function PostForest(ts: seq<Tree>): seq<Tree> {
    if ts == [] then [] else Post(ts[0]) + PostForest(ts[1..])
  }

  /* ---- stacks ---- */

  datatype Frame = Frame(children: seq<Tree>, pos: nat)

  ghost predicate Open(s: seq<Frame>) {
    forall i :: 0 <= i < |s| ==> s[i].pos < |s[i].children|
  }

  /** What comes after the nodes that the frames point to. */
  ghost function PreAfter(s: seq<Frame>): seq<Tree>
    requires Open(s)
  {
    if s == [] then []
    else
      var f := s[|s| - 1];
      PreForest(f.children[f.pos + 1..]) + PreAfter(s[..|s| - 1])
  }

  /** All but the top frame point to a node; the top one may be at its end. */
  ghost predicate Ajar(s: seq<Frame>) {
    s != [] ==> Open(s[..|s| - 1]) && s[|s| - 1].pos <= |s[|s| - 1].children|
  }

  ghost function PreFrom(s: seq<Frame>): seq<Tree>
    requires Ajar(s)
  {
    if s == [] then []
    else PreForest(s[|s| - 1].children[s[|s| - 1].pos..]) + PreAfter(s[..|s| - 1])
  }

  function Bumped(s: seq<Frame>): seq<Frame>
    requires s != []
  {
    s[|s| - 1 := Frame(s[|s| - 1].children, s[|s| - 1].pos + 1)]
  }

  /** Leaving a finished frame changes nothing of what is to come. */
  lemma {:induction false} PopFinished(s: seq<Frame>)
    requires s != [] && Ajar(s) && s[|s| - 1].pos == |s[|s| - 1].children|
    ensures var low := s[..|s| - 1]; PreFrom(s) == PreAfter(low)
    ensures |s| > 1 ==> var next := Bumped(s[..|s| - 1]); Ajar(next) && PreFrom(next) == PreFrom(s)
  {
    var low := s[..|s| - 1];
    assert [] + PreAfter(low) == PreAfter(low);
    if |s| > 1 {
      assert Bumped(low)[..|low| - 1] == low[..|low| - 1];
    }
  }

  lemma {:induction false} OpenFrom(s: seq<Frame>)
    requires Open(s) && s != []
    ensures var t := s[|s| - 1].children[s[|s| - 1].pos];
      Ajar(s) && PreFrom(s) == [t] + PreForest(t.children) + PreAfter(s)
  {
    var f := s[|s| - 1];
    var t := f.children[f.pos];
    assert f.children[f.pos..][1..] == f.children[f.pos + 1..] && f.children[f.pos..][0] == t;
    assert PreForest(f.children[f.pos..]) == Pre(t) + PreForest(f.children[f.pos + 1..]);
    assert PreAfter(s) == PreForest(f.children[f.pos + 1..]) + PreAfter(s[..|s| - 1]);
    Regroup4([t], PreForest(t.children), PreForest(f.children[f.pos + 1..]), PreAfter(s[..|s| - 1]));
  }

  lemma {:induction false} PushChildren(s: seq<Frame>, t: Tree)
    requires Open(s)
    ensures Ajar(s + [Frame(t.children, 0)])
    ensures [t] + PreForest(t.children) + PreAfter(s) == [t] + PreFrom(s + [Frame(t.children, 0)])
  {
    assert (s + [Frame(t.children, 0)])[..|s|] == s && t.children[0..] == t.children;
    Assoc([t], PreForest(t.children), PreAfter(s));
  }

  class PreIterator {
    const root: Tree
    var done: bool
    var first: bool
    var stack: seq<Frame>

    ghost predicate Valid()
      reads this
    {
      Open(stack) && (first ==> !done && stack == []) && (!first && !done ==> stack != [])
    }

    /** The nodes still to come, the current one first. */
    ghost function Remaining(): seq<Tree>
      requires Valid()
      reads this
    {
      if done then []
      else if first then Pre(root)
      else [Top()] + PreForest(Top().children) + PreAfter(stack)
    }

    function Top(): Tree
      requires Valid() && !first && !done
      reads this
    {
      stack[|stack| - 1].children[stack[|stack| - 1].pos]
    }

    constructor (root: Tree)
      ensures Valid() && Remaining() == Pre(root)
    {
      this.root := root;
      done, first, stack := false, true, [];
    }

    function Current(): Tree
      requires Valid() && !done
      reads this
    {
      if first then root else Top()
    }

    method Next()
      requires Valid() && !done
      modifies this
      ensures Valid() && old(Remaining()) == [old(Current())] + Remaining()
    {
      var node := Current();
      assert Remaining() == [node] + PreForest(node.children) + PreAfter(stack) by {
        assert Pre(node) + [] == Pre(node);
      }
      PushChildren(stack, node);
      first := false;
      stack := stack + [Frame(node.children, 0)];
      FindNext();
    }

    /** Pops finished frames and moves on in the frame below. */
    method FindNext()
      requires !first && !done && stack != [] && Ajar(stack)
      modifies this`stack, this`done
      ensures Valid() && Remaining() == old(PreFrom(stack))
    {
      while |stack| > 0 && stack[|stack| - 1].pos == |stack[|stack| - 1].children|
        invariant !first && (done <==> stack == []) && Ajar(stack) && PreFrom(stack) == old(PreFrom(stack))
        decreases |stack|
      {
        PopFinished(stack);
        stack := stack[..|stack| - 1];
        if |stack| > 0 {
          stack := Bumped(stack);
        } else {
          done := true;
        }
      }
      if !done {
        TopOpen(stack);
        OpenFrom(stack);
      }
    }
  }

  lemma {:induction false} TopOpen(s: seq<Frame>)
    requires s != [] && Ajar(s) && s[|s| - 1].pos < |s[|s| - 1].children|
    ensures Open(s)
  {
    forall i | 0 <= i < |s| ensures s[i].pos < |s[i].children| {
      if i < |s| - 1 {
        assert s[..|s| - 1][i] == s[i];
      }
    }
  }

  lemma Regroup4<T>(a: seq<T>, b: seq<T>, c: seq<T>, d: seq<T>)
    ensures a + b + (c + d) == (a + b) + c + d
  {
  }

  /* ---- post-order ---- */

  /** The nodes that the frames point to, each followed by what comes after it. */
  ghost function PostFrom(s: seq<Frame>): seq<Tree>
    requires Open(s)
  {
    if s == [] then []
    else
      var f := s[|s| - 1];
      [f.children[f.pos]] + PostForest(f.children[f.pos + 1..]) + PostFrom(s[..|s| - 1])
  }

  /** Going down to the first child. */
  lemma {:induction false} PushFirst(s: seq<Frame>, x: Tree)
    requires Open(s) && x.children != []
    ensures var next := s + [Frame(x.children, 0)];
      && Open(next)
      && PostForest(x.children) + PostFrom(s) == PostForest(x.children[0].children) + PostFrom(next)
  {
    var next, c := s + [Frame(x.children, 0)], x.children[0];
    assert next[..|next| - 1] == s;
    assert PostFrom(next) == [c] + PostForest(x.children[1..]) + PostFrom(s);
    assert PostForest(x.children) == PostForest(c.children) + [c] + PostForest(x.children[1..]);
    RegroupInner(PostForest(c.children), [c], PostForest(x.children[1..]), PostFrom(s));
  }

  lemma RegroupInner<T>(a: seq<T>, b: seq<T>, c: seq<T>, d: seq<T>)
    ensures a + b + c + d == a + (b + c + d)
  {
  }

  /** On to the next sibling, or back to the parent. */
  lemma {:induction false} BumpTop(s: seq<Frame>)
    requires Open(s) && s != []
    ensures var f := s[|s| - 1];
      f.pos + 1 == |f.children| ==> PostFrom(s) == [f.children[f.pos]] + PostFrom(s[..|s| - 1])
    ensures var f := s[|s| - 1];
      f.pos + 1 < |f.children| ==>
        && Open(Bumped(s))
        && PostFrom(s) == [f.children[f.pos]] + (PostForest(f.children[f.pos + 1].children) + PostFrom(Bumped(s)))
  {
    var f, low := s[|s| - 1], s[..|s| - 1];
    var node := f.children[f.pos];
    if f.pos + 1 == |f.children| {
      assert f.children[f.pos + 1..] == [];
      assert [node] + [] + PostFrom(low) == [node] + PostFrom(low);
    } else {
      var x, rest := f.children[f.pos + 1], f.children[f.pos + 2..];
      assert f.children[f.pos + 1..][0] == x && f.children[f.pos + 1..][1..] == rest;
      assert PostForest(f.children[f.pos + 1..]) == PostForest(x.children) + [x] + PostForest(rest);
      assert Bumped(s)[..|s| - 1] == low;
      assert PostFrom(Bumped(s)) == [x] + PostForest(rest) + PostFrom(low);
      Assoc([node], PostForest(f.children[f.pos + 1..]), PostFrom(low));
      RegroupInner(PostForest(x.children), [x], PostForest(rest), PostFrom(low));
    }
  }

  class PostIterator {
    const root: Tree
    var done: bool
    var last: bool
    var stack: seq<Frame>

    ghost predicate Valid()
      reads this
    {
      Open(stack) && (last ==> !done) && (!done ==> (last <==> stack == []))
    }

    /** The nodes still to come, the current one first. */
    ghost function Remaining(): seq<Tree>
      requires Valid()
      reads this
    {
      if done then [] else PostFrom(stack) + [root]
    }

    function Current(): Tree
      requires Valid() && !done
      reads this
    {
      if last then root else stack[|stack| - 1].children[stack[|stack| - 1].pos]
    }

    constructor (root: Tree)
      ensures Valid() && Remaining() == Post(root)
    {
      this.root := root;
      done, last, stack := false, false, [];
      new;
      PushLeftMost(root);
      last := |stack| == 0;
      assert PostForest(root.children) + [] == PostForest(root.children);
    }

    method PushLeftMost(x: Tree)
      requires Open(stack)
      modifies this`stack
      ensures Open(stack) && PostFrom(stack) == PostForest(x.children) + old(PostFrom(stack))
      ensures |stack| >= |old(stack)|
    {
      var y := x;
      while y.children != []
        invariant Open(stack)
        invariant PostForest(y.children) + PostFrom(stack) == PostForest(x.children) + old(PostFrom(stack))
        invariant |stack| >= |old(stack)|
        decreases y
      {
        PushFirst(stack, y);
        stack := stack + [Frame(y.children, 0)];
        y := y.children[0];
      }
      assert [] + PostFrom(stack) == PostFrom(stack);
    }

    method Next()
      requires Valid() && !done
      modifies this
      ensures Valid() && old(Remaining()) == [old(Current())] + Remaining()
    {
      if last {
        last, done := false, true;
        return;
      }
      BumpTop(stack);
      ghost var was, node := stack, Current();
      var f := stack[|stack| - 1];
      stack := Bumped(stack);
      if f.pos + 1 == |f.children| {
        stack := stack[..|stack| - 1];
        assert stack == was[..|was| - 1];
        last := |stack| == 0;
        Assoc([node], PostFrom(stack), [root]);
      } else {
        PushLeftMost(f.children[f.pos + 1]);
        Assoc([node], PostFrom(stack), [root]);
      }
    }
  }

  /* ---- walking a component tree ---- */

  /** umount_all: pre-order. */
  method UmountAll(root: Tree) returns (order: seq<Tree>)
    ensures order == Pre(root)
  {
    var it := new PreIterator(root);
    order := [];
    while !it.done
      invariant it.Valid() && fresh(it) && order + it.Remaining() == Pre(root)
      decreases |it.Remaining()|
    {
      var node := it.Current();
      order := order + [node];
      it.Next();
      Assoc(order[..|order| - 1], [node], it.Remaining());
      assert order[..|order| - 1] + [node] == order;
    }
    assert order + [] == order;
  }

  /** mount_all: post-order. */
  method MountAll(root: Tree) returns (order: seq<Tree>)
    ensures order == Post(root)
  {
    var it := new PostIterator(root);
    order := [];
    while !it.done
      invariant it.Valid() && fresh(it) && order + it.Remaining() == Post(root)
      decreases |it.Remaining()|
    {
      var node := it.Current();
      order := order + [node];
      it.Next();
      Assoc(order[..|order| - 1], [node], it.Remaining());
      assert order[..|order| - 1] + [node] == order;
    }
    assert order + [] == order;
  }

  /* ---- what the orders mean ---- */

  /** Right before each node in post-order come all its descendants, and nothing else
      between. */
  ghost predicate EndsOwnWalk(s: seq<Tree>, i: nat)
    requires i < |s|
  {
    |Post(s[i])| <= i + 1 && s[i + 1 - |Post(s[i])|..i + 1] == Post(s[i])
  }

  ghost predicate StartsOwnWalk(s: seq<Tree>, i: nat)
    requires i < |s|
  {
    i + |Pre(s[i])| <= |s| && s[i..i + |Pre(s[i])|] == Pre(s[i])
  }

  lemma SliceConcat<T>(a: seq<T>, b: seq<T>, i: nat, j: nat)
    ensures i <= j <= |a| ==> (a + b)[i..j] == a[i..j]
    ensures i <= j <= |b| ==> (a + b)[|a| + i..|a| + j] == b[i..j]
  {
  }

  /** Each component is mounted after all its descendants. */
  lemma {:induction false} MountedLast(t: Tree, i: nat)
    requires i < |Post(t)|
    ensures EndsOwnWalk(Post(t), i)
    decreases t, 1
  {
    var s := PostForest(t.children);
    if i < |s| {
      ForestMountedLast(t.children, i);
      SliceConcat(s, [t], i + 1 - |Post(s[i])|, i + 1);
    } else {
      assert Post(t)[0..] == Post(t);
    }
  }

  lemma {:induction false} ForestMountedLast(ts: seq<Tree>, i: nat)
    requires i < |PostForest(ts)|
    ensures EndsOwnWalk(PostForest(ts), i)
    decreases ts, 0
  {
    var a, b := Post(ts[0]), PostForest(ts[1..]);
    if i < |a| {
      MountedLast(ts[0], i);
      SliceConcat(a, b, i + 1 - |Post(a[i])|, i + 1);
    } else {
      var k := i - |a|;
      ForestMountedLast(ts[1..], k);
      SliceConcat(a, b, k + 1 - |Post(b[k])|, k + 1);
    }
  }

  /** Each component is unmounted before all its descendants. */
  lemma {:induction false} UnmountedFirst(t: Tree, i: nat)
    requires i < |Pre(t)|
    ensures StartsOwnWalk(Pre(t), i)
    decreases t, 1
  {
    var s := PreForest(t.children);
    if i > 0 {
      ForestUnmountedFirst(t.children, i - 1);
      SliceConcat([t], s, i - 1, i - 1 + |Pre(s[i - 1])|);
    } else {
      assert Pre(t)[0..|Pre(t)|] == Pre(t);
    }
  }

  lemma {:induction false} ForestUnmountedFirst(ts: seq<Tree>, i: nat)
    requires i < |PreForest(ts)|
    ensures StartsOwnWalk(PreForest(ts), i)
    decreases ts, 0
  {
    var a, b := Pre(ts[0]), PreForest(ts[1..]);
    if i < |a| {
      UnmountedFirst(ts[0], i);
      SliceConcat(a, b, i, i + |Pre(a[i])|);
    } else {
      var k := i - |a|;
      ForestUnmountedFirst(ts[1..], k);
      SliceConcat(a, b, k, k + |Pre(b[k])|);
    }
  }
}
