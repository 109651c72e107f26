/** A parsed HTML document as BeautifulSoup presents it: a forest of tags and
    text nodes.  Document order is the pre-order of the forest. */
module Html {
  import opened Wrappers

  datatype Element =
    | Text(text: string)
    | Tag(name: string, classes: seq<string>, attrs: map<string, string>, children: seq<Element>)

  /** A parsed page: the top-level nodes of the document. */
  type Page = seq<Element>

  function ChildrenOf(e: Element): seq<Element> {
    if e.Tag? then e.children else []
  }

  /** Every node of the forest in document order, each followed by its descendants. */
  function Flatten(forest: seq<Element>): (r: seq<Element>)
    ensures |forest| <= |r|
    decreases forest
  {
    if forest == [] then []
    else
      var e := forest[0];
      assert e in forest;
      [e] + (if e.Tag? then Flatten(e.children) else []) + Flatten(forest[1..])
  }

  /** The concatenation of the text nodes among `nodes`. */
  function Texts(nodes: seq<Element>): string {
    if nodes == [] then ""
    else (if nodes[0].Text? then nodes[0].text else "") + Texts(nodes[1..])
  }

  /** `get_text()`: all text below (or of) the node, in document order. */
  function TextOf(e: Element): string {
    Texts(Flatten([e]))
  }

  /** The `.string` property: the text of a text node, or of a tag whose only
      child has a `.string`; `None` for every other tag. */
  function StringOf(e: Element): Option<string> {
    match e
    case Text(t) => Some(t)
    case Tag(_, _, _, children) =>
      if |children| == 1 then
        assert children[0] in children;
        StringOf(children[0])
      else None
  }

  /** `tag.get(key)`. */
  function Attr(e: Element, key: string): Option<string> {
    if e.Tag? && key in e.attrs then Some(e.attrs[key]) else None
  }

  /** A node together with the part of the document that follows its subtree
      (what BeautifulSoup's `find_next` walks through once the node's own
      descendants are exhausted). */
  datatype Located = Located(elem: Element, following: seq<Element>)

  function Elems(ls: seq<Located>): (r: seq<Element>)
    ensures |r| == |ls| && forall k :: 0 <= k < |ls| ==> r[k] == ls[k].elem
  {
    if ls == [] then [] else [ls[0].elem] + Elems(ls[1..])
  }

  /** The nodes of `forest` in document order, each located in a document in
      which `after` follows the forest. */
  function Walk(forest: seq<Element>, after: seq<Element>): (r: seq<Located>)
    ensures Elems(r) == Flatten(forest)
    decreases forest
  {
    if forest == [] then []
    else
      var e := forest[0];
      assert e in forest;
      var rest := Flatten(forest[1..]) + after;
      [Located(e, rest)] + (if e.Tag? then Walk(e.children, rest) else []) + Walk(forest[1..], after)
  }

  lemma ElemsAppend(a: seq<Located>, b: seq<Located>)
    ensures Elems(a + b) == Elems(a) + Elems(b)
  {
  }

  lemma AppendAssoc<T>(a: seq<T>, b: seq<T>, c: seq<T>)
    ensures (a + b) + c == a + (b + c)
  {
  }

  /** The `following` part of every located node is exactly the rest of the
      document after that node's subtree. */
  lemma FlattenCons(forest: seq<Element>)
    requires forest != []
    ensures Flatten(forest) == [forest[0]] + Flatten(ChildrenOf(forest[0])) + Flatten(forest[1..])
  {
  }

  lemma WalkCons(forest: seq<Element>, after: seq<Element>)
    requires forest != []
    ensures Walk(forest, after)
            == [Located(forest[0], Flatten(forest[1..]) + after)]
               + Walk(ChildrenOf(forest[0]), Flatten(forest[1..]) + after)
               + Walk(forest[1..], after)
  {
  }

  /** The `following` part of every located node is exactly the rest of the
      document after that node's subtree. */
  lemma {:induction false} WalkFollowing(forest: seq<Element>, after: seq<Element>, k: nat)
    requires k < |Flatten(forest)|
    ensures |Walk(forest, after)| == |Flatten(forest)|
    ensures Flatten(forest)[k + 1..] + after
            == Flatten(ChildrenOf(Flatten(forest)[k])) + Walk(forest, after)[k].following
    decreases forest
  {
    var w := Walk(forest, after);
    assert |Elems(w)| == |w|;
    var e := forest[0];
    assert e in forest;
    var fc := Flatten(ChildrenOf(e));
    var ft := Flatten(forest[1..]);
    var rest := ft + after;
    var wc := Walk(ChildrenOf(e), rest);
    var wt := Walk(forest[1..], after);
    assert |wc| == |fc| by {
      assert Elems(wc) == fc;
    }
    assert |wt| == |ft| by {
      assert Elems(wt) == ft;
    }
    FlattenCons(forest);
    WalkCons(forest, after);
    if k == 0 {
      FollowingHead(Flatten(forest), w, e, fc, ft, after, wc, wt);
    } else if k <= |fc| {
      WalkFollowing(ChildrenOf(e), rest, k - 1);
      FollowingInside(Flatten(forest), w, e, fc, ft, after, wc, wt, k);
    } else {
      WalkFollowing(forest[1..], after, k - 1 - |fc|);
      FollowingAfter(Flatten(forest), w, e, fc, ft, after, wc, wt, k);
    }
  }

  lemma FollowingHead(f: seq<Element>, w: seq<Located>, e: Element, fc: seq<Element>,
                      ft: seq<Element>, after: seq<Element>, wc: seq<Located>, wt: seq<Located>)
    requires f == [e] + fc + ft && w == [Located(e, ft + after)] + wc + wt
    ensures f[1..] + after == fc + w[0].following
  {
    assert f[1..] == fc + ft;
    AppendAssoc(fc, ft, after);
  }

  lemma FollowingInside(f: seq<Element>, w: seq<Located>, e: Element, fc: seq<Element>,
                        ft: seq<Element>, after: seq<Element>, wc: seq<Located>, wt: seq<Located>, k: nat)
    requires f == [e] + fc + ft && w == [Located(e, ft + after)] + wc + wt
    requires |wc| == |fc| && 1 <= k <= |fc|
    requires fc[k..] + (ft + after) == Flatten(ChildrenOf(fc[k - 1])) + wc[k - 1].following
    ensures f[k + 1..] + after == Flatten(ChildrenOf(f[k])) + w[k].following
  {
    assert f[k] == fc[k - 1];
    assert w[k] == wc[k - 1];
    assert f[k + 1..] == fc[k..] + ft;
    AppendAssoc(fc[k..], ft, after);
  }

  lemma FollowingAfter(f: seq<Element>, w: seq<Located>, e: Element, fc: seq<Element>,
                       ft: seq<Element>, after: seq<Element>, wc: seq<Located>, wt: seq<Located>, k: nat)
    requires f == [e] + fc + ft && w == [Located(e, ft + after)] + wc + wt
    requires |wc| == |fc| && |wt| == |ft| && 1 + |fc| <= k < |f|
    requires ft[k - |fc|..] + after == Flatten(ChildrenOf(ft[k - 1 - |fc|])) + wt[k - 1 - |fc|].following
    ensures f[k + 1..] + after == Flatten(ChildrenOf(f[k])) + w[k].following
  {
    var j := k - 1 - |fc|;
    assert f[k] == ft[j];
    assert w[k] == wt[j];
    assert f[k + 1..] == ft[j + 1..];
  }

  /** The descendants of a node in document order (`find_all` with no filter). */
  function Descendants(e: Element): seq<Element> {
    Flatten(ChildrenOf(e))
  }

  /** The elements of `es` that satisfy `p`, in their order (`find_all`). */
  function Filter(es: seq<Element>, p: Element -> bool): (r: seq<Element>)
    ensures |r| <= |es|
  {
    if es == [] then []
    else (if p(es[0]) then [es[0]] else []) + Filter(es[1..], p)
  }

  /** `Filter` keeps exactly the elements that pass. */
  lemma {:induction false} FilterMembers(es: seq<Element>, p: Element -> bool)
    ensures forall x :: x in Filter(es, p) <==> x in es && p(x)
  {
    if es != [] {
      FilterMembers(es[1..], p);
      assert es == [es[0]] + es[1..];
    }
  }

  /** `k` is the first position of `es` whose element satisfies `p`. */
  predicate FirstAt(es: seq<Element>, k: int, p: Element -> bool) {
    0 <= k < |es| && p(es[k]) && forall k' :: 0 <= k' < k ==> !p(es[k'])
  }

  lemma FirstAtUnique(es: seq<Element>, k1: int, k2: int, p: Element -> bool)
    requires FirstAt(es, k1, p) && FirstAt(es, k2, p)
    ensures k1 == k2
  {
  }

  /** The first element of `es` that satisfies `p` (`find`). */
  function Find(es: seq<Element>, p: Element -> bool): (r: Option<Element>)
    ensures r.None? <==> forall k :: 0 <= k < |es| ==> !p(es[k])
    ensures r.Some? ==> exists k :: FirstAt(es, k, p) && es[k] == r.value
  {
    if es == [] then None
    else if p(es[0]) then
      assert FirstAt(es, 0, p);
      Some(es[0])
    else
      var tail := es[1..];
      var r := Find(tail, p);
      assert r.Some? ==> exists k :: FirstAt(es, k, p) && es[k] == r.value by {
        if r.Some? {
          var k :| FirstAt(tail, k, p) && tail[k] == r.value;
          assert es == [es[0]] + tail;
          assert FirstAt(es, k + 1, p) by {
            forall k' | 0 <= k' < k + 1 ensures !p(es[k']) {
              if k' > 0 { assert es[k'] == tail[k' - 1]; }
            }
          }
        }
      }
      r
  }

  /** For a test only text nodes pass, the first located node that passes is
      followed by exactly the rest of the document after it. */
  lemma FirstTextFollowing(forest: seq<Element>, after: seq<Element>, p: Element -> bool, k: nat)
    requires forall e :: p(e) ==> e.Text?
    requires FirstAt(Flatten(forest), k, p)
    ensures FirstWhere(Walk(forest, after), p).Some?
    ensures FirstWhere(Walk(forest, after), p).value.following == Flatten(forest)[k + 1..] + after
  {
    var w := Walk(forest, after);
    var d := Flatten(forest);
    assert Elems(w) == d;
    assert p(w[k].elem);
    var m := FirstWhere(w, p).value;
    var k' :| FirstAt(Elems(w), k', p) && w[k'] == m;
    FirstAtUnique(d, k, k', p);
    WalkFollowing(forest, after, k);
    assert ChildrenOf(d[k]) == [];
  }

  /** The located nodes of `ls` whose node satisfies `p`, in their order. */
  function Keep(ls: seq<Located>, p: Element -> bool): (r: seq<Located>)
    ensures Elems(r) == Filter(Elems(ls), p)
  {
    if ls == [] then []
    else
      assert Elems(ls) == [ls[0].elem] + Elems(ls[1..]);
      (if p(ls[0].elem) then [ls[0]] else []) + Keep(ls[1..], p)
  }

  /** `Keep` keeps only located nodes that pass. */
  lemma {:induction false} KeepMembers(ls: seq<Located>, p: Element -> bool)
    ensures forall x :: x in Keep(ls, p) ==> x in ls && p(x.elem)
  {
    if ls != [] {
      KeepMembers(ls[1..], p);
      assert ls == [ls[0]] + ls[1..];
    }
  }

  /** The first located node of `ls` whose node satisfies `p`. */
  function FirstWhere(ls: seq<Located>, p: Element -> bool): (r: Option<Located>)
    ensures r.None? <==> forall k :: 0 <= k < |ls| ==> !p(ls[k].elem)
    ensures r.Some? ==> exists k :: FirstAt(Elems(ls), k, p) && ls[k] == r.value
  {
    if ls == [] then None
    else if p(ls[0].elem) then
      assert FirstAt(Elems(ls), 0, p);
      Some(ls[0])
    else
      var r := FirstWhere(ls[1..], p);
      assert r.Some? ==> exists k :: FirstAt(Elems(ls), k, p) && ls[k] == r.value by {
        if r.Some? {
          var es, tail := Elems(ls), Elems(ls[1..]);
          var k :| FirstAt(tail, k, p) && ls[1..][k] == r.value;
          assert es == [ls[0].elem] + tail;
          assert FirstAt(es, k + 1, p) by {
            forall k' | 0 <= k' < k + 1 ensures !p(es[k']) {
              if k' > 0 { assert es[k'] == tail[k' - 1]; }
            }
          }
        }
      }
      r
  }
}
