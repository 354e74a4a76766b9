/**
 * `remove_namespace`, identical in all three tools: every element tag of the
 * form `{uri}local` becomes `local`. The tree is seen as the sequence of its
 * elements in the order `tree.iter()` visits them (document order), each with
 * its depth, so that structure is part of what the stripping must keep.
 */
module Namespaces {
  import opened Outcomes

  /** One XML element: its tag, its text, its attributes and its depth in the tree. */
  datatype Node = Node(tag: string, text: Option<string>, attributes: map<string, string>, depth: nat)

  /** The index of the first `c` in `s`, or `|s|` when there is none. */
  function IndexOf(s: string, c: char): (i: nat)
    ensures i <= |s|
    ensures i < |s| ==> s[i] == c
    ensures forall k :: 0 <= k < i ==> s[k] != c
    decreases |s|
  {
    if s == [] then 0 else if s[0] == c then 0 else 1 + IndexOf(s[1..], c)
  }

  /**
   * `tag.split("}", 1)[1]` when `"}" in tag`, else `tag`: a tag holding a
   * brace is cut after its FIRST brace; any other tag is kept.
   */
  function LocalName(tag: string): (r: string)
    ensures '}' !in tag ==> r == tag
    ensures '}' in tag ==> exists p :: tag == p + "}" + r && '}' !in p
  {
    var i := IndexOf(tag, '}');
    if i < |tag| then
      assert tag == tag[..i] + "}" + tag[i + 1..];
      tag[i + 1..]
    else tag
  }

  /** A tag is left alone exactly when it holds no brace. */
  lemma LocalNameFixed(tag: string)
    ensures LocalName(tag) == tag <==> '}' !in tag
  {
    if '}' in tag {
      var p :| tag == p + "}" + LocalName(tag) && '}' !in p;
      assert |LocalName(tag)| < |tag|;
    }
  }

  /** The whole tree after `remove_namespace`. */
  function Stripped(nodes: seq<Node>): (r: seq<Node>)
    ensures |r| == |nodes|
    ensures forall i :: 0 <= i < |nodes| ==>
      r[i] == nodes[i].(tag := LocalName(nodes[i].tag))
  {
    seq(|nodes|, i requires 0 <= i < |nodes| => nodes[i].(tag := LocalName(nodes[i].tag)))
  }

  /**
   * Stripping a stripped tree changes nothing exactly when no local name
   * holds a further brace (`{a}{b}c` becomes `{b}c`, then `c`).
   */
  lemma StrippedIdempotent(nodes: seq<Node>)
    ensures Stripped(Stripped(nodes)) == Stripped(nodes) <==>
      forall i :: 0 <= i < |nodes| ==> '}' !in LocalName(nodes[i].tag)
  {
    var once := Stripped(nodes);
    forall i | 0 <= i < |nodes|
      ensures Stripped(once)[i] == once[i] <==> '}' !in LocalName(nodes[i].tag)
    {
      LocalNameFixed(once[i].tag);
    }
    if forall i :: 0 <= i < |nodes| ==> '}' !in LocalName(nodes[i].tag) {
      assert Stripped(once) == once;
    }
  }

  /**
   * `remove_namespace(tree)`: rewrites the tag of every element holding a
   * brace, in place; no element is added, removed or moved, and text,
   * attributes and depth are kept.
   */
  method RemoveNamespace(tree: array<Node>)
    modifies tree
    ensures tree[..] == Stripped(old(tree[..]))
  {
    ghost var before := tree[..];
    var i := 0;
    while i < tree.Length
      invariant 0 <= i <= tree.Length
      invariant tree[..i] == Stripped(before[..i])
      invariant tree[i..] == before[i..]
    {
      var elem := tree[i];
      if '}' in elem.tag {
        tree[i] := elem.(tag := LocalName(elem.tag));
      } else {
        LocalNameFixed(elem.tag);
      }
      assert tree[..i + 1] == tree[..i] + [tree[i]];
      assert before[..i + 1] == before[..i] + [before[i]];
      i := i + 1;
    }
    assert before[..tree.Length] == before;
  }
}
