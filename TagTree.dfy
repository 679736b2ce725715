/** The tree part of `JXSRTElement`: a node with a tag name, its text, its
    attribute dictionary, a `parent` back link and the ordered children it
    owns. The style and rendering members are not part of this model.

    Following `parent` must end at a root. Because the heap can hold cycles,
    this is stated over a ghost set `N` of nodes: `Acyclic(x, N)` says the
    walk up from `x` stays inside `N` and never visits a node twice, and
    `Forest(N)` says this holds for every node in `N`. */
module TagTree {
  import opened Wrappers

  class Element {
    var parent: Element?
    var tagName: string
    var text: string
    var attributes: map<string, string>
    var children: seq<Element>

    /** A detached node with the given tag name, no text, no attributes and
        no children. */
    constructor (name: string)
      ensures parent == null && tagName == name && text == ""
      ensures attributes == map[] && children == []
    {
      parent := null;
      tagName := name;
      text := "";
      attributes := map[];
      children := [];
    }

    /** `attributeForKey:`: the value stored under `key`, None (nil) when
        there is none. */
    function AttributeForKey(key: string): (r: Option<string>)
      reads this
      ensures r.Some? <==> key in attributes
      ensures r.Some? ==> r.value == attributes[key]
    {
      if key in attributes then Some(attributes[key]) else None
    }

    /** `path`: the tag names from the root down to this node, joined by
        "/". A root's path is its own tag name. */
    function Path(ghost N: set<Element>): (r: string)
      requires Acyclic(this, N)
      reads N
      decreases N
      ensures parent == null ==> r == tagName
      ensures |tagName| <= |r| && r[|r| - |tagName|..] == tagName
    {
      if parent == null then tagName
      else parent.Path(N - {this}) + "/" + tagName
    }

    /** `parentWithTagName:`: the nearest proper ancestor whose tag name is
        `name`, null (nil) when there is none. */
    function ParentWithTagName(name: string, ghost N: set<Element>): (r: Element?)
      requires Acyclic(this, N)
      reads N
      decreases N
      ensures r != null ==> r in N && r != this && r.tagName == name
      ensures r != null ==> exists k :: 1 <= k < |Ancestry(this, N)| && Ancestry(this, N)[k] == r
    {
      if parent == null then null
      else
        AncestryTail(this, N);
        if parent.tagName == name then parent
        else parent.ParentWithTagName(name, N - {this})
    }

    /** `addChild:`: appends `child` and makes this node its parent. When the
        nodes formed a forest and `child` is not this node or one of its
        ancestors, they still do. */
    method AddChild(child: Element, ghost N: set<Element>)
      modifies this`children, child`parent
      ensures children == old(children) + [child]
      ensures child.parent == this
      ensures old(Forest(N)) && this in N && child in N && child !in old(Ancestry(this, N))
              ==> Forest(N)
    {
      ghost var keeps := Forest(N) && this in N && child in N && child !in Ancestry(this, N);
      child.parent := this;
      children := children + [child];
      if keeps {
        ghost var tail := old(Ancestry(this, N));
        assert old(LinkedAway(tail, child));
        forall x | x in N
          ensures Acyclic(x, N)
        {
          var c := old(Ancestry(x, N));
          assert old(LinkedAway(c, child));
          RelinkChain(N, child, c, tail);
        }
      }
    }

    /** `removeChild:`: drops every occurrence of `child` from the children,
        keeping the others in order, and detaches `child`. A forest stays a
        forest. */
    method RemoveChild(child: Element, ghost N: set<Element>)
      modifies this`children, child`parent
      ensures children == Without(old(children), child)
      ensures child.parent == null
      ensures old(Forest(N)) && child in N ==> Forest(N)
    {
      var kept: seq<Element> := [];
      var i := 0;
      while i < |children|
        invariant 0 <= i <= |children|
        invariant kept == Without(children[..i], child)
      {
        assert children[..i + 1][..i] == children[..i];
        if children[i] != child {
          kept := kept + [children[i]];
        }
        i := i + 1;
      }
      assert children[..i] == children;
      children := kept;
      child.parent := null;
      if old(Forest(N)) && child in N {
        forall x | x in N
          ensures Acyclic(x, N)
        {
          var c := old(Ancestry(x, N));
          assert old(LinkedAway(c, child));
          RelinkChain(N, child, c, []);
        }
      }
    }

    /** `copyWithZone:`: a new detached node with the same tag name, text and
        attributes and no children. */
    method Copy() returns (r: Element)
      ensures fresh(r)
      ensures r.tagName == tagName && r.text == text && r.attributes == attributes
      ensures r.parent == null && r.children == []
    {
      r := new Element(tagName);
      r.text := text;
      r.attributes := attributes;
    }
  }

  /** The walk up from `x` stays in `N` and reaches a root without repeating
      a node (each step removes the node it leaves from `N`). */
  ghost predicate Acyclic(x: Element, N: set<Element>)
    reads N
    decreases N
  {
    x in N && (x.parent == null || Acyclic(x.parent, N - {x}))
  }

  /** Every node of `N` has a finite parent chain inside `N`. */
  ghost predicate Forest(N: set<Element>)
    reads N
  {
    forall x :: x in N ==> Acyclic(x, N)
  }

  /** `c` is a walk along `parent` links that ends at a root. */
  ghost predicate IsChain(c: seq<Element>)
    reads c
  {
    |c| > 0 && c[|c| - 1].parent == null
    && forall i :: 0 <= i < |c| - 1 ==> c[i].parent == c[i + 1]
  }

  /** The node followed by its ancestors, nearest first. */
  ghost function Ancestry(x: Element, N: set<Element>): (a: seq<Element>)
    requires Acyclic(x, N)
    reads N
    decreases N
    ensures |a| > 0 && a[0] == x
    ensures forall i :: 0 <= i < |a| ==> a[i] in N
    ensures IsChain(a)
    ensures forall i, j :: 0 <= i < j < |a| ==> a[i] != a[j]
  {
    if x.parent == null then [x] else [x] + Ancestry(x.parent, N - {x})
  }

  /** The ancestry of a node with a parent is the node, then its parent's
      ancestry. */
  lemma AncestryTail(x: Element, N: set<Element>)
    requires Acyclic(x, N) && x.parent != null
    ensures Acyclic(x.parent, N - {x}) && Ancestry(x, N)[1] == x.parent
    ensures forall k :: 0 <= k < |Ancestry(x.parent, N - {x})| ==> Ancestry(x, N)[k + 1] == Ancestry(x.parent, N - {x})[k]
  {
  }

  /** Following `parent` is deterministic: two chains from one node agree. */
  lemma {:induction false} ChainUnique(c: seq<Element>, d: seq<Element>)
    requires IsChain(c) && IsChain(d) && c[0] == d[0]
    ensures c == d
    decreases |c|
  {
    assert |c| == 1 <==> c[0].parent == null by {
      if |c| > 1 { assert c[0].parent == c[1]; }
    }
    assert |d| == 1 <==> d[0].parent == null by {
      if |d| > 1 { assert d[0].parent == d[1]; }
    }
    if |c| > 1 {
      assert c[0].parent == c[1] && d[0].parent == d[1];
      ChainUnique(c[1..], d[1..]);
      assert c == [c[0]] + c[1..] && d == [d[0]] + d[1..];
    }
  }

  /** A chain inside `M` makes its first node acyclic in `M`; with the
      contract of Ancestry this is the converse: a node is acyclic exactly
      when a chain from it exists. */
  lemma {:induction false} ChainAcyclic(c: seq<Element>, M: set<Element>)
    requires IsChain(c)
    requires forall i :: 0 <= i < |c| ==> c[i] in M
    ensures Acyclic(c[0], M)
    decreases |c|
  {
    if |c| > 1 {
      forall j | 1 <= j < |c|
        ensures c[j] != c[0]
      {
        if c[j] == c[0] {
          ChainUnique(c, c[j..]);
        }
      }
      ChainAcyclic(c[1..], M - {c[0]});
    }
  }

  /** `c` is linked by `parent` at every node other than `child`, and ends
      at a root unless it ends at `child`. Only those nodes' `parent` links
      are read, so relinking `child` leaves this unchanged. */
  ghost predicate LinkedAway(c: seq<Element>, child: Element)
    reads (set i | 0 <= i < |c| && c[i] != child :: c[i])`parent
  {
    |c| > 0 && (c[|c| - 1] != child ==> c[|c| - 1].parent == null)
    && forall i :: 0 <= i < |c| - 1 && c[i] != child ==> c[i].parent == c[i + 1]
  }

  /** What `child` points at: nothing, or the head of a chain `tail` inside
      `N` that does not pass through `child`. */
  ghost predicate RelinkTarget(N: set<Element>, child: Element, tail: seq<Element>)
    reads child, tail
  {
    if child.parent == null then true
    else tail != [] && tail[0] == child.parent && child !in tail
         && (forall i :: 0 <= i < |tail| ==> tail[i] in N) && LinkedAway(tail, child)
  }

  /** The walk up from `c[0]` once `child`'s parent points at `tail`: the
      old walk as far as `child`, then `tail`. */
  ghost function Relinked(child: Element, c: seq<Element>, tail: seq<Element>): (e: seq<Element>)
    requires |c| > 0
    reads child
    ensures |e| > 0 && e[0] == c[0]
    decreases |c|
  {
    if c[0] == child then (if child.parent == null then [child] else [child] + tail)
    else if |c| == 1 then c
    else [c[0]] + Relinked(child, c[1..], tail)
  }

  /** A walk that was a chain apart from `child`, whose parent now points
      at `tail`, is still a chain to a root inside `N`. */
  lemma {:induction false} RelinkedChain(N: set<Element>, child: Element, c: seq<Element>, tail: seq<Element>)
    requires LinkedAway(c, child) && forall i :: 0 <= i < |c| ==> c[i] in N
    requires RelinkTarget(N, child, tail)
    ensures IsChain(Relinked(child, c, tail))
    ensures forall i :: 0 <= i < |Relinked(child, c, tail)| ==> Relinked(child, c, tail)[i] in N
    decreases |c|
  {
    if c[0] != child && |c| > 1 {
      assert c[0].parent == c[1];
      RelinkedChain(N, child, c[1..], tail);
    }
  }

  /** Relinking `child` to a target that keeps it off its own ancestry keeps
      every node whose old chain is `c` acyclic. */
  lemma RelinkChain(N: set<Element>, child: Element, c: seq<Element>, tail: seq<Element>)
    requires LinkedAway(c, child) && forall i :: 0 <= i < |c| ==> c[i] in N
    requires RelinkTarget(N, child, tail)
    ensures Acyclic(c[0], N)
  {
    RelinkedChain(N, child, c, tail);
    ChainAcyclic(Relinked(child, c, tail), N);
  }

  /** `s` with every occurrence of `x` removed, the rest in order. */
  function Without(s: seq<Element>, x: Element): (r: seq<Element>)
    ensures |r| <= |s|
  {
    if s == [] then []
    else Without(s[..|s| - 1], x) + (if s[|s| - 1] == x then [] else [s[|s| - 1]])
  }

  /** Membership after removal: exactly the other elements remain. */
  lemma {:induction false} WithoutMembers(s: seq<Element>, x: Element, y: Element)
    ensures y in Without(s, x) <==> y in s && y != x
  {
    if s != [] {
      WithoutMembers(s[..|s| - 1], x, y);
      assert s == s[..|s| - 1] + [s[|s| - 1]];
    }
  }

  /** Removing an element that is not there changes nothing. */
  lemma {:induction false} WithoutAbsent(s: seq<Element>, x: Element)
    requires x !in s
    ensures Without(s, x) == s
  {
    if s != [] {
      WithoutAbsent(s[..|s| - 1], x);
      assert s == s[..|s| - 1] + [s[|s| - 1]];
    }
  }

  lemma {:induction false} WithoutAppend(s: seq<Element>, t: seq<Element>, x: Element)
    ensures Without(s + t, x) == Without(s, x) + Without(t, x)
    decreases |t|
  {
    if t == [] {
      assert s + t == s;
    } else {
      assert (s + t)[..|s + t| - 1] == s + t[..|t| - 1];
      WithoutAppend(s, t[..|t| - 1], x);
    }
  }

  /** Removing a child that occurs once at `i` closes the gap and keeps the
      order of the children before and after it. */
  lemma {:induction false} WithoutSingle(s: seq<Element>, i: nat, x: Element)
    requires i < |s| && s[i] == x
    requires forall j :: 0 <= j < |s| && j != i ==> s[j] != x
    ensures Without(s, x) == s[..i] + s[i + 1..]
  {
    OnlyAt(s, i, x);
    assert s == s[..i] + [x] + s[i + 1..];
    WithoutAround(s[..i], x, s[i + 1..]);
  }

  /** Removing the one occurrence between two runs without it joins the
      runs. */
  lemma WithoutAround(before: seq<Element>, x: Element, after: seq<Element>)
    requires x !in before && x !in after
    ensures Without(before + [x] + after, x) == before + after
  {
    var upTo := before + [x];
    assert upTo[..|upTo| - 1] == before;
    assert Without(upTo, x) == Without(before, x);
    WithoutAbsent(before, x);
    WithoutAbsent(after, x);
    WithoutAppend(upTo, after, x);
  }

  lemma OnlyAt(s: seq<Element>, i: nat, x: Element)
    requires i < |s|
    requires forall j :: 0 <= j < |s| && j != i ==> s[j] != x
    ensures x !in s[..i] && x !in s[i + 1..]
  {
    var before, after := s[..i], s[i + 1..];
    forall j | 0 <= j < |before| ensures before[j] != x { assert before[j] == s[j]; }
    forall j | 0 <= j < |after| ensures after[j] != x { assert after[j] == s[i + 1 + j]; }
  }

  /** The names along the parent chain, root first. */
  ghost function RootFirstNames(a: seq<Element>): seq<string>
    reads a
  {
    if a == [] then [] else RootFirstNames(a[1..]) + [a[0].tagName]
  }

  /** Names joined by "/", first name first. */
  function JoinPath(names: seq<string>): string
    requires names != []
  {
    if |names| == 1 then names[0] else names[0] + "/" + JoinPath(names[1..])
  }

  lemma {:induction false} JoinPathSnoc(names: seq<string>, last: string)
    requires names != []
    ensures JoinPath(names + [last]) == JoinPath(names) + "/" + last
  {
    if |names| > 1 {
      assert (names + [last])[1..] == names[1..] + [last];
      JoinPathSnoc(names[1..], last);
    }
  }

  /** A path is the tag names of the chain, root first, joined by "/". */
  lemma {:induction false} PathJoinsNames(x: Element, N: set<Element>)
    requires Acyclic(x, N)
    ensures x.Path(N) == JoinPath(RootFirstNames(Ancestry(x, N)))
    decreases N
  {
    var a := Ancestry(x, N);
    if x.parent == null {
      assert a == [x];
      assert RootFirstNames(a) == RootFirstNames([]) + [x.tagName];
    } else {
      var rest := Ancestry(x.parent, N - {x});
      assert a[1..] == rest;
      PathJoinsNames(x.parent, N - {x});
      JoinPathSnoc(RootFirstNames(rest), x.tagName);
    }
  }

  /** The path depends on nothing but the tag names along the chain. */
  lemma PathDependsOnNames(x: Element, N: set<Element>, y: Element, M: set<Element>)
    requires Acyclic(x, N) && Acyclic(y, M)
    requires RootFirstNames(Ancestry(x, N)) == RootFirstNames(Ancestry(y, M))
    ensures x.Path(N) == y.Path(M)
  {
    PathJoinsNames(x, N);
    PathJoinsNames(y, M);
  }

  /** parentWithTagName: answers null exactly when no proper ancestor of
      `x` carries the name. */
  lemma {:induction false} ParentWithTagNameNone(x: Element, name: string, N: set<Element>)
    requires Acyclic(x, N)
    ensures x.ParentWithTagName(name, N) == null
            <==> forall j :: 1 <= j < |Ancestry(x, N)| ==> Ancestry(x, N)[j].tagName != name
    decreases N
  {
    var a := Ancestry(x, N);
    if x.parent != null {
      var rest := Ancestry(x.parent, N - {x});
      assert a == [x] + rest;
      if x.parent.tagName != name {
        ParentWithTagNameNone(x.parent, name, N - {x});
        assert x.ParentWithTagName(name, N) == x.parent.ParentWithTagName(name, N - {x});
        if forall j :: 1 <= j < |rest| ==> rest[j].tagName != name {
          forall j | 1 <= j < |a|
            ensures a[j].tagName != name
          {
            if j > 1 { assert a[j] == rest[j - 1]; }
          }
        } else {
          var j :| 1 <= j < |rest| && rest[j].tagName == name;
          assert a[j + 1] == rest[j];
        }
      } else {
        assert a[1] == x.parent;
      }
    }
  }

  /** parentWithTagName: a non-null answer is the first proper ancestor of
      `x`, nearest first, that carries the name. */
  lemma {:induction false} ParentWithTagNameNearest(x: Element, name: string, N: set<Element>)
    requires Acyclic(x, N)
    ensures x.ParentWithTagName(name, N) != null
            ==> exists k :: 1 <= k < |Ancestry(x, N)| && Ancestry(x, N)[k] == x.ParentWithTagName(name, N)
                  && forall j :: 1 <= j < k ==> Ancestry(x, N)[j].tagName != name
    decreases N
  {
    var a := Ancestry(x, N);
    if x.parent != null {
      var rest := Ancestry(x.parent, N - {x});
      assert a == [x] + rest;
      assert a[1] == x.parent;
      var r := x.ParentWithTagName(name, N);
      if x.parent.tagName != name && r != null {
        ParentWithTagNameNearest(x.parent, name, N - {x});
        assert r == x.parent.ParentWithTagName(name, N - {x});
        NearestShift(x, rest, r, name);
      }
    }
  }

  /** Putting a node in front of an ancestry whose own first node does not
      carry the name moves its nearest named ancestor one place along. */
  lemma NearestShift(x: Element, rest: seq<Element>, r: Element, name: string)
    requires |rest| > 0 && rest[0].tagName != name
    requires exists k :: 1 <= k < |rest| && rest[k] == r && forall j :: 1 <= j < k ==> rest[j].tagName != name
    ensures exists k :: 1 <= k < |[x] + rest| && ([x] + rest)[k] == r
              && forall j :: 1 <= j < k ==> ([x] + rest)[j].tagName != name
  {
    var a := [x] + rest;
    var k :| 1 <= k < |rest| && rest[k] == r && forall j :: 1 <= j < k ==> rest[j].tagName != name;
    assert a[k + 1] == r;
    forall j | 1 <= j < k + 1
      ensures a[j].tagName != name
    {
      assert a[j] == rest[j - 1];
    }
  }
}
