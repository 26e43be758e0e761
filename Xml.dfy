/** The parsed WordprocessingML tree as `xml.etree.ElementTree` presents it, and the three
    lookups the extractor makes on it: `find("./x")` (first direct child with a tag),
    `findall("./x")` (all direct children with a tag) and `findall(".//x")` (all
    descendants with a tag, in document order). */
module Xml {
  import opened Wrappers

  /** A namespace-qualified name; ElementTree writes it `{ns}local`. */
  datatype QName = QName(ns: string, local: string)

  /** An element: its tag, its attributes, its leading text (`.text`, `None` when absent)
      and its child elements in document order. */
  datatype Element = Element(tag: QName, attrs: map<QName, string>, text: Option<string>, children: seq<Element>)

  /** The WordprocessingML main namespace (prompt.py line 8). */
  const WordNs: string := "http://schemas.openxmlformats.org/wordprocessingml/2006/main"

  function W(local: string): QName {
    QName(WordNs, local)
  }

  /** The qualified names the extractor looks up. */
  const TagBody := W("body")
  const TagP := W("p")
  const TagT := W("t")
  const TagPPr := W("pPr")
  const TagPStyle := W("pStyle")
  const TagTbl := W("tbl")
  const TagTr := W("tr")
  const TagTc := W("tc")
  const AttrVal := W("val")

  /** The first element of `cs` whose tag is `name`. */
  function FirstNamed(cs: seq<Element>, name: QName): (r: Option<Element>)
    ensures r.None? <==> forall i :: 0 <= i < |cs| ==> cs[i].tag != name
    ensures r.Some? ==> exists i :: 0 <= i < |cs| && cs[i] == r.value && IsFirstNamed(cs, name, i)
  {
    if cs == [] then None
    else if cs[0].tag == name then Some(cs[0])
    else
      var r := FirstNamed(cs[1..], name);
      assert r.Some? ==> exists i :: 0 <= i < |cs| && cs[i] == r.value && IsFirstNamed(cs, name, i) by {
        if r.Some? {
          var j :| 0 <= j < |cs[1..]| && cs[1..][j] == r.value && IsFirstNamed(cs[1..], name, j);
          assert cs[j + 1] == r.value && IsFirstNamed(cs, name, j + 1);
        }
      }
      r
  }

  ghost predicate IsFirstNamed(cs: seq<Element>, name: QName, i: int)
    requires 0 <= i < |cs|
  {
    cs[i].tag == name && forall j :: 0 <= j < i ==> cs[j].tag != name
  }

  /** `e.find("./name")`. */
  function FirstChild(e: Element, name: QName): (r: Option<Element>)
    ensures r.None? <==> forall i :: 0 <= i < |e.children| ==> e.children[i].tag != name
    ensures r.Some? ==>
      exists i :: 0 <= i < |e.children| && e.children[i] == r.value && IsFirstNamed(e.children, name, i)
  {
    FirstNamed(e.children, name)
  }

  /** The elements of `cs` whose tag is `name`, in order. */
  function Named(cs: seq<Element>, name: QName): (r: seq<Element>)
    ensures |r| <= |cs|
    ensures forall k :: 0 <= k < |r| ==> r[k].tag == name && r[k] in cs
    ensures forall i :: 0 <= i < |cs| && cs[i].tag == name ==> cs[i] in r
    ensures (forall i :: 0 <= i < |cs| ==> cs[i].tag == name) ==> r == cs
  {
    if cs == [] then []
    else (if cs[0].tag == name then [cs[0]] else []) + Named(cs[1..], name)
  }

  /** `e.findall("./name")`. */
  function ChildrenNamed(e: Element, name: QName): (r: seq<Element>)
    ensures forall k :: 0 <= k < |r| ==> r[k].tag == name && r[k] in e.children
    ensures forall i :: 0 <= i < |e.children| && e.children[i].tag == name ==> e.children[i] in r
  {
    Named(e.children, name)
  }

  /** The elements of the forest `cs`, each followed by its own descendants (document order),
      whose tag is `name`. */
  function DescendantsIn(cs: seq<Element>, name: QName): (r: seq<Element>)
    decreases cs
    ensures forall k :: 0 <= k < |r| ==> r[k].tag == name
    ensures forall i :: 0 <= i < |cs| && cs[i].tag == name ==> cs[i] in r
  {
    if cs == [] then []
    else (if cs[0].tag == name then [cs[0]] else []) + DescendantsIn(cs[0].children, name) + DescendantsIn(cs[1..], name)
  }

  /** `e.findall(".//name")`: descendants only, never `e` itself. */
  function Descendants(e: Element, name: QName): (r: seq<Element>)
    ensures forall k :: 0 <= k < |r| ==> r[k].tag == name
    ensures forall i :: 0 <= i < |e.children| && e.children[i].tag == name ==> e.children[i] in r
  {
    DescendantsIn(e.children, name)
  }

  // ---------------------------------------------------------------------------
  // What the lookups return, stated without the lookups

  /** `r` lists the elements of `cs` at the positions `p`; the positions increase, and they are
      exactly the positions whose element has the tag `name`. */
  ghost predicate PicksTagged(cs: seq<Element>, name: QName, r: seq<Element>, p: seq<int>) {
    && |p| == |r|
    && (forall k :: 0 <= k < |p| ==> 0 <= p[k] < |cs| && r[k] == cs[p[k]])
    && (forall k, l :: 0 <= k < l < |p| ==> p[k] < p[l])
    && (forall i :: 0 <= i < |cs| ==> (cs[i].tag == name <==> i in p))
  }

  /** The positions `q`, each moved one place on. */
  ghost function Shift(q: seq<int>): (r: seq<int>)
    ensures |r| == |q| && forall k :: 0 <= k < |q| ==> r[k] == q[k] + 1
  {
    seq(|q|, k requires 0 <= k < |q| => q[k] + 1)
  }

  /** The positions of `cs` whose element has the tag `name`, front to back. */
  ghost function TaggedPositions(cs: seq<Element>, name: QName): seq<int> {
    if cs == [] then [] else (if cs[0].tag == name then [0] else []) + Shift(TaggedPositions(cs[1..], name))
  }

  lemma NamedCons(cs: seq<Element>, name: QName)
    requires cs != []
    ensures Named(cs, name) == (if cs[0].tag == name then [cs[0]] else []) + Named(cs[1..], name)
  {
  }

  lemma PicksCons(cs: seq<Element>, head: seq<int>, q: seq<int>, r0: seq<Element>, r: seq<Element>)
    requires cs != []
    requires (head == [0] && r == [cs[0]] + r0) || (head == [] && r == r0)
    requires |q| == |r0| && forall k :: 0 <= k < |q| ==> 0 <= q[k] < |cs[1..]| && r0[k] == cs[1..][q[k]]
    ensures |head + Shift(q)| == |r|
    ensures forall k :: 0 <= k < |r| ==> 0 <= (head + Shift(q))[k] < |cs| && r[k] == cs[(head + Shift(q))[k]]
  {
    var p := head + Shift(q);
    forall k | 0 <= k < |r| ensures 0 <= p[k] < |cs| && r[k] == cs[p[k]] {
      if k >= |head| {
        assert p[k] == q[k - |head|] + 1;
        assert r[k] == r0[k - |head|];
        assert cs[1..][q[k - |head|]] == cs[p[k]];
      }
    }
  }

  lemma IncreasingCons(head: seq<int>, q: seq<int>)
    requires head == [] || head == [0]
    requires forall k :: 0 <= k < |q| ==> 0 <= q[k]
    requires forall k, l :: 0 <= k < l < |q| ==> q[k] < q[l]
    ensures forall k, l :: 0 <= k < l < |head + Shift(q)| ==> (head + Shift(q))[k] < (head + Shift(q))[l]
  {
    var p := head + Shift(q);
    forall k, l | 0 <= k < l < |p| ensures p[k] < p[l] {
      assert p[l] == q[l - |head|] + 1;
      if k >= |head| {
        assert p[k] == q[k - |head|] + 1;
      }
    }
  }

  lemma MembersCons(cs: seq<Element>, name: QName, q: seq<int>)
    requires cs != []
    requires forall k :: 0 <= k < |q| ==> 0 <= q[k]
    requires forall i :: 0 <= i < |cs[1..]| ==> (cs[1..][i].tag == name <==> i in q)
    ensures
      var p := (if cs[0].tag == name then [0] else []) + Shift(q);
      forall i :: 0 <= i < |cs| ==> (cs[i].tag == name <==> i in p)
  {
    var head := if cs[0].tag == name then [0] else [];
    var p := head + Shift(q);
    var rest := cs[1..];
    forall i | 0 <= i < |cs| ensures cs[i].tag == name <==> i in p {
      if i > 0 {
        assert cs[i] == rest[i - 1];
        if i - 1 in q {
          var k :| 0 <= k < |q| && q[k] == i - 1;
          assert p[|head| + k] == i;
        }
        if i in p {
          var k :| 0 <= k < |p| && p[k] == i;
          assert k >= |head| && q[k - |head|] == i - 1;
        }
      } else {
        assert forall k :: |head| <= k < |p| ==> p[k] == q[k - |head|] + 1 && q[k - |head|] >= 0;
      }
    }
  }

  /** `Named` keeps every element with the tag, once, in the order of `cs`, and nothing else. */
  lemma {:induction false} NamedPicksTagged(cs: seq<Element>, name: QName)
    ensures PicksTagged(cs, name, Named(cs, name), TaggedPositions(cs, name))
  {
    if cs == [] {
    } else {
      var q := TaggedPositions(cs[1..], name);
      NamedPicksTagged(cs[1..], name);
      var head := if cs[0].tag == name then [0] else [];
      NamedCons(cs, name);
      PicksCons(cs, head, q, Named(cs[1..], name), Named(cs, name));
      IncreasingCons(head, q);
      MembersCons(cs, name, q);
    }
  }

  /** `findall("./name")` returns each direct child with the tag exactly once, in document
      order, and no other element. */
  lemma ChildrenNamedInOrder(e: Element, name: QName)
    ensures exists p :: PicksTagged(e.children, name, ChildrenNamed(e, name), p)
  {
    NamedPicksTagged(e.children, name);
    assert PicksTagged(e.children, name, ChildrenNamed(e, name), TaggedPositions(e.children, name));
  }

  /** `p` lists, in increasing order, the positions of exactly those children of `e` that are
      tagged `name`. */
  ghost predicate TaggedAt(e: Element, name: QName, p: seq<int>) {
    && (forall k :: 0 <= k < |p| ==> 0 <= p[k] < |e.children|)
    && (forall k, l :: 0 <= k < l < |p| ==> p[k] < p[l])
    && (forall i :: 0 <= i < |e.children| ==> (e.children[i].tag == name <==> i in p))
  }

  /** Whatever is computed from each child `findall("./name")` returns is computed, in document
      order, from exactly the children tagged `name`, one entry for each. */
  lemma ChildrenNamedMapped<T>(e: Element, name: QName, f: Element -> T, r: seq<T>)
    requires |r| == |ChildrenNamed(e, name)|
    requires forall k :: 0 <= k < |r| ==> r[k] == f(ChildrenNamed(e, name)[k])
    ensures exists p :: && TaggedAt(e, name, p) && |p| == |r|
                        && forall k :: 0 <= k < |p| ==> r[k] == f(e.children[p[k]])
  {
    var p := TaggedPositions(e.children, name);
    assert PicksTagged(e.children, name, ChildrenNamed(e, name), p) by { NamedPicksTagged(e.children, name); }
    assert TaggedAt(e, name, p);
  }

  /** `x` is one of the elements of the forest `cs` or lies below one of them. */
  ghost predicate Under(x: Element, cs: seq<Element>)
    decreases cs
  {
    exists i :: 0 <= i < |cs| && (x == cs[i] || Under(x, cs[i].children))
  }

  lemma UnderCons(x: Element, cs: seq<Element>)
    requires cs != []
    ensures Under(x, cs) <==> x == cs[0] || Under(x, cs[0].children) || Under(x, cs[1..])
  {
    if Under(x, cs) {
      var i :| 0 <= i < |cs| && (x == cs[i] || Under(x, cs[i].children));
      if i > 0 {
        assert cs[1..][i - 1] == cs[i];
      }
    }
    if Under(x, cs[1..]) {
      var i :| 0 <= i < |cs[1..]| && (x == cs[1..][i] || Under(x, cs[1..][i].children));
      assert cs[i + 1] == cs[1..][i];
    }
  }

  lemma {:induction false} DescendantsInIff(cs: seq<Element>, name: QName, x: Element)
    decreases cs
    ensures x in DescendantsIn(cs, name) <==> x.tag == name && Under(x, cs)
  {
    if cs != [] {
      DescendantsInIff(cs[0].children, name, x);
      DescendantsInIff(cs[1..], name, x);
      UnderCons(x, cs);
    }
  }

  /** `findall(".//name")` returns exactly the elements with the tag that lie below `e`, at any
      depth. */
  lemma DescendantsAtAnyDepth(e: Element, name: QName)
    ensures forall x :: x in Descendants(e, name) <==> x.tag == name && Under(x, e.children)
  {
    forall x {
      DescendantsInIff(e.children, name, x);
    }
  }
}
