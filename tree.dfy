/** The item tree behind the CTQ model, as an ordered tree of values. A node is
    addressed by its path: the row of each step down from the root. The root is
    the synthetic header item; needs, drivers and CTQs sit at depths 1, 2 and 3. */
module Tree {

  datatype Node = Node(text: string, note: string, children: seq<Node>)

  /** Rows from the root down to a node. */
  type Path = seq<nat>

  /** `p` leads from `t` to a node. */
  predicate ValidPath(t: Node, p: Path)
    decreases p
  {
    p == [] || (p[0] < |t.children| && ValidPath(t.children[p[0]], p[1..]))
  }

  /** The node at the end of `p`. */
  function NodeAt(t: Node, p: Path): Node
    requires ValidPath(t, p)
    decreases p
  {
    if p == [] then t else NodeAt(t.children[p[0]], p[1..])
  }

  /** A path one step longer addresses a child of the shorter path's node. */
  lemma {:induction false} NodeAtChild(t: Node, p: Path, k: nat)
    requires ValidPath(t, p)
    ensures ValidPath(t, p + [k]) <==> k < |NodeAt(t, p).children|
    ensures ValidPath(t, p + [k]) ==> NodeAt(t, p + [k]) == NodeAt(t, p).children[k]
    decreases p
  {
    if p != [] {
      assert (p + [k])[1..] == p[1..] + [k];
      NodeAtChild(t.children[p[0]], p[1..], k);
    }
  }

  /** Every prefix of a valid path is valid. */
  lemma {:induction false} ValidPathPrefix(t: Node, p: Path, i: nat)
    requires ValidPath(t, p) && i <= |p|
    ensures ValidPath(t, p[..i])
    decreases p
  {
    if i > 0 {
      assert p[..i][1..] == p[1..][..i - 1];
      ValidPathPrefix(t.children[p[0]], p[1..], i - 1);
    }
  }

  /** `t` with `leaf` appended as the last child of the node at `p`. */
  function AppendAt(t: Node, p: Path, leaf: Node): (r: Node)
    requires ValidPath(t, p)
    ensures r.text == t.text && r.note == t.note
    decreases p
  {
    if p == [] then t.(children := t.children + [leaf])
    else t.(children := t.children[p[0] := AppendAt(t.children[p[0]], p[1..], leaf)])
  }

  /** Appending changes only the node at `p`, which gains `leaf` as its last
      child: every path of `t` still leads to a node with the same text and
      note, and every node but the one at `p` keeps its children. */
  lemma {:induction false} AppendAtEffect(t: Node, p: Path, leaf: Node, q: Path)
    requires ValidPath(t, p) && ValidPath(t, q)
    ensures var t' := AppendAt(t, p, leaf);
            ValidPath(t', q)
            && NodeAt(t', q).text == NodeAt(t, q).text && NodeAt(t', q).note == NodeAt(t, q).note
            && (q == p ==> NodeAt(t', q).children == NodeAt(t, q).children + [leaf])
            && (q != p ==> |NodeAt(t', q).children| == |NodeAt(t, q).children|)
            && (q != p && !(|q| <= |p| && q == p[..|q|]) ==> NodeAt(t', q) == NodeAt(t, q))
    decreases q
  {
    var t' := AppendAt(t, p, leaf);
    if q == [] {
    } else if p == [] {
      assert t'.children[q[0]] == t.children[q[0]];
    } else if p[0] == q[0] {
      AppendAtEffect(t.children[p[0]], p[1..], leaf, q[1..]);
      assert p == [p[0]] + p[1..] && q == [q[0]] + q[1..];
      if |q| <= |p| && q == p[..|q|] {
        assert q[1..] == p[..|q|][1..] == p[1..][..|q| - 1];
      }
    } else {
      assert t'.children[q[0]] == t.children[q[0]];
    }
  }

  /** `p` follows the last child at every step: it lies on the right-most
      branch, where the most recently appended item hangs. */
  predicate OnSpine(t: Node, p: Path)
    decreases p
  {
    p == [] || (|t.children| > 0 && p[0] == |t.children| - 1 && OnSpine(t.children[p[0]], p[1..]))
  }

  /** Length of the right-most branch: the depth of the last item in pre-order
      (0 when the root has no children). */
  function SpineDepth(t: Node): nat
  {
    if t.children == [] then 0 else 1 + SpineDepth(t.children[|t.children| - 1])
  }

  lemma {:induction false} OnSpineIsValid(t: Node, p: Path)
    requires OnSpine(t, p)
    ensures ValidPath(t, p)
    decreases p
  {
    if p != [] {
      OnSpineIsValid(t.children[p[0]], p[1..]);
    }
  }

  /** A node on the right-most branch has children exactly when the branch goes
      deeper than it. */
  lemma {:induction false} SpineChildren(t: Node, p: Path)
    requires OnSpine(t, p)
    ensures ValidPath(t, p)
    ensures |p| <= SpineDepth(t)
    ensures |NodeAt(t, p).children| > 0 <==> SpineDepth(t) > |p|
    decreases p
  {
    OnSpineIsValid(t, p);
    if p != [] {
      SpineChildren(t.children[p[0]], p[1..]);
    }
  }

  /** Prefixes of a right-most path are on the right-most branch too. */
  lemma {:induction false} SpinePrefix(t: Node, p: Path, i: nat)
    requires OnSpine(t, p) && i <= |p|
    ensures OnSpine(t, p[..i])
    decreases p
  {
    if i > 0 {
      assert p[..i][1..] == p[1..][..i - 1];
      SpinePrefix(t.children[p[0]], p[1..], i - 1);
    }
  }

  /** Stepping to the last child stays on the right-most branch. */
  lemma {:induction false} SpineExtend(t: Node, p: Path)
    requires OnSpine(t, p)
    requires ValidPath(t, p) && |NodeAt(t, p).children| > 0
    ensures OnSpine(t, p + [|NodeAt(t, p).children| - 1])
    decreases p
  {
    if p != [] {
      assert (p + [|NodeAt(t, p).children| - 1])[1..] == p[1..] + [|NodeAt(t, p).children| - 1];
      SpineExtend(t.children[p[0]], p[1..]);
    }
  }

  /** One line of the pre-order listing: an item's text, note and depth. */
  datatype Entry = Entry(text: string, note: string, depth: nat)

  /** Pre-order listing of the subtrees `cs`, whose roots sit at depth `d`. */
  function Flatten(cs: seq<Node>, d: nat): seq<Entry>
    decreases cs
  {
    if cs == [] then []
    else [Entry(cs[0].text, cs[0].note, d)] + Flatten(cs[0].children, d + 1) + Flatten(cs[1..], d)
  }

  /** Pre-order listing of every item below the root; the root's children are at depth 1. */
  function Entries(t: Node): seq<Entry>
  {
    Flatten(t.children, 1)
  }

  lemma {:induction false} FlattenConcat(a: seq<Node>, b: seq<Node>, d: nat)
    ensures Flatten(a + b, d) == Flatten(a, d) + Flatten(b, d)
    decreases a
  {
    if a == [] {
      assert a + b == b;
    } else {
      assert (a + b)[0] == a[0];
      assert (a + b)[1..] == a[1..] + b;
      FlattenConcat(a[1..], b, d);
    }
  }

  /** The last entry of the listing is at the depth of the right-most branch. */
  lemma {:induction false} LastEntryDepth(t: Node)
    ensures Entries(t) == [] <==> SpineDepth(t) == 0
    ensures Entries(t) != [] ==> Entries(t)[|Entries(t)| - 1].depth == SpineDepth(t)
  {
    LastEntryDepthAt(t.children, 1);
  }

  lemma {:induction false} LastEntryDepthAt(cs: seq<Node>, d: nat)
    ensures Flatten(cs, d) == [] <==> cs == []
    ensures cs != [] ==> Flatten(cs, d)[|Flatten(cs, d)| - 1].depth
                         == d + SpineDepth(cs[|cs| - 1])
    decreases cs
  {
    if cs != [] {
      var init, c := cs[..|cs| - 1], cs[|cs| - 1];
      assert cs == init + [c];
      FlattenConcat(init, [c], d);
      assert [c][1..] == [];
      LastEntryDepthAt(c.children, d + 1);
      if c.children != [] {
        assert SpineDepth(c) == 1 + SpineDepth(c.children[|c.children| - 1]);
      }
    }
  }

  /** Appending a leaf under a node of the right-most branch adds exactly one
      entry, at the end of the pre-order listing, one level below that node. */
  lemma {:induction false} AppendOnSpine(t: Node, p: Path, text: string, note: string, d: nat)
    requires OnSpine(t, p)
    ensures ValidPath(t, p)
    ensures Flatten(AppendAt(t, p, Node(text, note, [])).children, d)
            == Flatten(t.children, d) + [Entry(text, note, d + |p|)]
    decreases p
  {
    OnSpineIsValid(t, p);
    var leaf := Node(text, note, []);
    var t' := AppendAt(t, p, leaf);
    if p == [] {
      FlattenConcat(t.children, [leaf], d);
      assert [leaf][1..] == [];
      assert Flatten([leaf], d) == [Entry(text, note, d)];
    } else {
      var k := p[0];
      var init, c := t.children[..k], t.children[k];
      var c' := AppendAt(c, p[1..], leaf);
      AppendOnSpine(c, p[1..], text, note, d + 1);
      assert t.children == init + [c];
      assert t'.children == init + [c'];
      FlattenConcat(init, [c], d);
      FlattenConcat(init, [c'], d);
      FlattenSingle(c, d);
      FlattenSingle(c', d);
      var a, e, b, n := Flatten(init, d), [Entry(c.text, c.note, d)], Flatten(c.children, d + 1),
                        [Entry(text, note, d + |p|)];
      assert Flatten(t.children, d) == a + (e + b);
      assert c'.text == c.text && c'.note == c.note && d + 1 + |p[1..]| == d + |p|;
      assert Flatten(c'.children, d + 1) == b + n;
      assert Flatten([c'], d) == e + (b + n);
      assert Flatten(t'.children, d) == a + (e + (b + n));
      Regroup(a, e, b, n);
    }
  }

  lemma FlattenSingle(c: Node, d: nat)
    ensures Flatten([c], d) == [Entry(c.text, c.note, d)] + Flatten(c.children, d + 1)
  {
    assert [c][1..] == [];
  }

  lemma Regroup<T>(a: seq<T>, b: seq<T>, c: seq<T>, e: seq<T>)
    ensures a + (b + (c + e)) == a + (b + c) + e
  {
  }

  /** After such an append the node is still on the right-most branch, and that
      branch now ends at the new leaf. */
  lemma {:induction false} AppendKeepsSpine(t: Node, p: Path, leaf: Node)
    requires OnSpine(t, p) && leaf.children == []
    ensures ValidPath(t, p)
    ensures OnSpine(AppendAt(t, p, leaf), p) && SpineDepth(AppendAt(t, p, leaf)) == |p| + 1
    decreases p
  {
    OnSpineIsValid(t, p);
    if p != [] {
      AppendKeepsSpine(t.children[p[0]], p[1..], leaf);
    }
  }
}
