/**
 * The part of Python's xml.etree.ElementTree that the ABN bulk-extract
 * reader relies on: elements with a tag, attributes, optional text and
 * children, `find` (first child with a tag), `findall` (every child with a
 * tag, in document order) and `get` (an attribute or None).
 * Also the whitespace test behind `str.split()` with no argument.
 */
module Xml {
  import opened Wrappers

  datatype Element = Element(tag: string, attrs: map<string, string>, text: Option<string>, children: seq<Element>)

  /** Index of the first element of `children` at or after `start` whose tag is `tag`. */
  function FirstWithTagFrom(children: seq<Element>, tag: string, start: nat): (r: Option<nat>)
    requires start <= |children|
    ensures r.Some? ==> start <= r.value < |children| && children[r.value].tag == tag
    ensures r.Some? ==> forall j :: start <= j < r.value ==> children[j].tag != tag
    ensures r.None? ==> forall j :: start <= j < |children| ==> children[j].tag != tag
    decreases |children| - start
  {
    if start == |children| then None
    else if children[start].tag == tag then Some(start)
    else FirstWithTagFrom(children, tag, start + 1)
  }

  /** `elem.find(tag)`: the first direct child whose tag is `tag`, or None. */
  function Find(e: Element, tag: string): (r: Option<Element>)
    ensures r.Some? ==> r.value.tag == tag
    ensures r.Some? ==> exists i :: 0 <= i < |e.children| && e.children[i] == r.value &&
                                    forall j :: 0 <= j < i ==> e.children[j].tag != tag
    ensures r.None? <==> forall j :: 0 <= j < |e.children| ==> e.children[j].tag != tag
  {
    match FirstWithTagFrom(e.children, tag, 0)
    case Some(i) => Some(e.children[i])
    case None => None
  }

  /** The elements of `children` whose tag is `tag`, in order. */
  function WithTag(children: seq<Element>, tag: string): (r: seq<Element>)
    ensures |r| <= |children|
    ensures forall k :: 0 <= k < |r| ==> r[k].tag == tag
  {
    if |children| == 0 then []
    else (if children[0].tag == tag then [children[0]] else []) + WithTag(children[1..], tag)
  }

  /**
   * Every element kept is one of the children, every child with the tag is
   * kept, and nothing is kept exactly when no child has the tag.
   */
  lemma {:induction false} WithTagMembers(children: seq<Element>, tag: string)
    ensures forall k :: 0 <= k < |WithTag(children, tag)| ==> WithTag(children, tag)[k] in children
    ensures forall j :: 0 <= j < |children| && children[j].tag == tag ==> children[j] in WithTag(children, tag)
    ensures WithTag(children, tag) == [] <==> forall j :: 0 <= j < |children| ==> children[j].tag != tag
    decreases |children|
  {
    if |children| > 0 {
      var rest := WithTag(children[1..], tag);
      WithTagMembers(children[1..], tag);
      var head := if children[0].tag == tag then [children[0]] else [];
      assert WithTag(children, tag) == head + rest;
      forall k | 0 <= k < |head + rest| ensures (head + rest)[k] in children {
        if k >= |head| {
          assert (head + rest)[k] == rest[k - |head|];
          assert rest[k - |head|] in children[1..];
        }
      }
      forall j | 0 <= j < |children| && children[j].tag == tag ensures children[j] in head + rest {
        if j > 0 {
          assert children[j] == children[1..][j - 1];
          assert children[j] in rest;
        }
      }
      if head == [] && rest != [] {
        var j :| 0 <= j < |children[1..]| && children[1..][j].tag == tag;
        assert children[j + 1].tag == tag;
      }
      if head == [] && rest == [] {
        forall j | 0 <= j < |children| ensures children[j].tag != tag {
          if j > 0 { assert children[j] == children[1..][j - 1]; }
        }
      }
    }
  }

  /** `elem.findall(tag)`: every direct child whose tag is `tag`, in document order. */
  function FindAll(e: Element, tag: string): seq<Element>
  {
    WithTag(e.children, tag)
  }

  /** `elem.get(name)`: the attribute's value, or None. */
  function Get(e: Element, name: string): Option<string>
  {
    if name in e.attrs then Some(e.attrs[name]) else None
  }

  /** `x.text if x is not None else None`. */
  function TextOf(x: Option<Element>): Option<string>
  {
    match x
    case Some(el) => el.text
    case None => None
  }

  /** `str.endswith(suffix)`. */
  predicate EndsWith(s: string, suffix: string)
  {
    |suffix| <= |s| && s[|s| - |suffix|..] == suffix
  }

  /** Keeping only the children with a tag distributes over concatenation. */
  lemma {:induction false} WithTagAppend(a: seq<Element>, b: seq<Element>, tag: string)
    ensures WithTag(a + b, tag) == WithTag(a, tag) + WithTag(b, tag)
  {
    if |a| == 0 {
      assert a + b == b;
    } else {
      var head := if a[0].tag == tag then [a[0]] else [];
      assert (a + b)[0] == a[0];
      assert (a + b)[1..] == a[1..] + b;
      assert WithTag(a + b, tag) == head + WithTag(a[1..] + b, tag);
      assert WithTag(a, tag) == head + WithTag(a[1..], tag);
      WithTagAppend(a[1..], b, tag);
      assert head + (WithTag(a[1..], tag) + WithTag(b, tag)) == (head + WithTag(a[1..], tag)) + WithTag(b, tag);
    }
  }

  /** `findall(tag)[0]` is `find(tag)`, and `findall` is empty exactly when `find` gives None. */
  lemma {:induction false} FindAllHeadIsFind(e: Element, tag: string)
    ensures |FindAll(e, tag)| > 0 <==> Find(e, tag).Some?
    ensures |FindAll(e, tag)| > 0 ==> FindAll(e, tag)[0] == Find(e, tag).value
  {
    WithTagHead(e.children, tag, 0);
  }

  lemma {:induction false} WithTagHead(children: seq<Element>, tag: string, start: nat)
    requires start <= |children|
    ensures |WithTag(children[start..], tag)| > 0 <==> FirstWithTagFrom(children, tag, start).Some?
    ensures |WithTag(children[start..], tag)| > 0 ==>
              WithTag(children[start..], tag)[0] == children[FirstWithTagFrom(children, tag, start).value]
    decreases |children| - start
  {
    if start < |children| {
      assert children[start..][0] == children[start];
      assert children[start..][1..] == children[start + 1..];
      WithTagHead(children, tag, start + 1);
    }
  }

  /** `e` with the child `c` inserted before position `p` of its children. */
  function InsertChild(e: Element, p: nat, c: Element): Element
    requires p <= |e.children|
  {
    Element(e.tag, e.attrs, e.text, e.children[..p] + [c] + e.children[p..])
  }

  /** `findall` after inserting a child: the inserted child appears, if it has the tag, between the matches before and after it. */
  lemma FindAllInsert(e: Element, p: nat, c: Element, tag: string)
    requires p <= |e.children|
    ensures FindAll(e, tag) == WithTag(e.children[..p], tag) + WithTag(e.children[p..], tag)
    ensures FindAll(InsertChild(e, p, c), tag) ==
              WithTag(e.children[..p], tag) + (if c.tag == tag then [c] else []) + WithTag(e.children[p..], tag)
  {
    var before, after := e.children[..p], e.children[p..];
    assert before + after == e.children;
    WithTagAppend(before, after, tag);
    WithTagAppend(before + [c], after, tag);
    WithTagAppend(before, [c], tag);
    assert WithTag([c], tag) == (if c.tag == tag then [c] else []) + WithTag([c][1..], tag);
    assert [c][1..] == [];
  }

  /** Inserting a child with another tag anywhere leaves `find` for `tag` as it was. */
  lemma FindInsertOtherTag(e: Element, p: nat, c: Element, tag: string)
    requires p <= |e.children| && c.tag != tag
    ensures Find(InsertChild(e, p, c), tag) == Find(e, tag)
  {
    FindAllInsert(e, p, c, tag);
    FindAllHeadIsFind(e, tag);
    FindAllHeadIsFind(InsertChild(e, p, c), tag);
  }

  /** The whitespace characters `str.split()` splits on (Python's `str.isspace`). */
  predicate IsPyWhitespace(c: char)
  {
    var n := c as int;
    (0x09 <= n <= 0x0D) || (0x1C <= n <= 0x20) || n == 0x85 || n == 0xA0 || n == 0x1680 ||
    (0x2000 <= n <= 0x200A) || n == 0x2028 || n == 0x2029 || n == 0x202F || n == 0x205F || n == 0x3000
  }

  /** `''.join(s.split())`: the string with every whitespace character removed. */
  function RemovePyWhitespace(s: string): (r: string)
    ensures |r| <= |s|
    ensures forall k :: 0 <= k < |r| ==> !IsPyWhitespace(r[k])
    ensures (forall k :: 0 <= k < |s| ==> !IsPyWhitespace(s[k])) ==> r == s
    ensures (forall k :: 0 <= k < |s| ==> IsPyWhitespace(s[k])) ==> r == ""
  {
    if |s| == 0 then ""
    else (if IsPyWhitespace(s[0]) then "" else [s[0]]) + RemovePyWhitespace(s[1..])
  }

  /** Removing whitespace distributes over concatenation: every other character is kept, in order. */
  lemma {:induction false} RemovePyWhitespaceAppend(a: string, b: string)
    ensures RemovePyWhitespace(a + b) == RemovePyWhitespace(a) + RemovePyWhitespace(b)
  {
    if |a| == 0 {
      assert a + b == b;
    } else {
      var head := if IsPyWhitespace(a[0]) then "" else [a[0]];
      assert (a + b)[0] == a[0];
      assert (a + b)[1..] == a[1..] + b;
      assert RemovePyWhitespace(a + b) == head + RemovePyWhitespace(a[1..] + b);
      RemovePyWhitespaceAppend(a[1..], b);
      assert head + (RemovePyWhitespace(a[1..]) + RemovePyWhitespace(b)) ==
             (head + RemovePyWhitespace(a[1..])) + RemovePyWhitespace(b);
    }
  }
}
