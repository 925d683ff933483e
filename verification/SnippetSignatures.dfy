/** What signatures tell apart: everything they are made for, if the hash functions lose nothing. */
module SnippetSignatures {
  import opened Ast
  import opened SnippetShapes
  import opened SnippetExtract
  import opened SnippetComparison

  /** Hash functions without collisions. */
  ghost predicate IsFree(h: Hasher) {
    && (forall a, b, c, d :: h.combine(a, b) == h.combine(c, d) ==> a == c && b == d)
    && (forall s, t :: h.text(s) == h.text(t) ==> s == t)
  }

  ghost predicate SameTypes(a: Snippet, b: Snippet, n: nat)
    requires n <= |a.nodes| && n <= |b.nodes|
  {
    forall i :: 0 <= i < n ==> a.nodes[i].nodeType == b.nodes[i].nodeType
  }

  /** The nodes agree in the key, and in the name, the text, the child count or the value, as far as it is hashed. */
  ghost predicate FieldsAgree(a: Snippet, b: Snippet, i: nat, skip: bool)
    requires i < |a.nodes| && i < |b.nodes|
  {
    var l, r := a.nodes[i], b.nodes[i];
    && l.attributeKey % 0x1_0000 == r.attributeKey % 0x1_0000
    && (l.nodeType == NAME && !skip ==>
          (if l.childrenBeginOrValue < |a.names| then a.names[l.childrenBeginOrValue] else "")
          == (if r.childrenBeginOrValue < |b.names| then b.names[r.childrenBeginOrValue] else ""))
    && (IsLiteralType(l.nodeType) && !skip ==> TextAt(a.text, l.span) == TextAt(b.text, r.span))
    && (l.nodeType != NAME && !IsLiteralType(l.nodeType) ==>
          l.childrenCount % 0x1_0000_0000 == r.childrenCount % 0x1_0000_0000)
    && (l.nodeType != NAME && !IsLiteralType(l.nodeType) && l.nodeType < OBJECT_KEYS ==>
          l.childrenBeginOrValue % 0x1_0000 == r.childrenBeginOrValue % 0x1_0000)
  }

  lemma {:induction false} NodeTells(h: Hasher, v: nat, w: nat, a: Snippet, b: Snippet, i: nat, skip: bool)
    requires IsFree(h) && i < |a.nodes| && i < |b.nodes| && a.nodes[i].nodeType == b.nodes[i].nodeType
    ensures HashNode(h, v, a, a.nodes[i], skip) == HashNode(h, w, b, b.nodes[i], skip)
      <==> v == w && FieldsAgree(a, b, i, skip)
  {
  }

  /** Signatures agree up to the next node exactly if they did before and the node agrees. */
  ghost predicate NextTells(h: Hasher, a: Snippet, b: Snippet, k: nat, skip: bool)
    requires k < |a.nodes| && k < |b.nodes|
  {
    SignatureOf(h, a, k + 1, skip) == SignatureOf(h, b, k + 1, skip)
    <==> SignatureOf(h, a, k, skip) == SignatureOf(h, b, k, skip) && FieldsAgree(a, b, k, skip)
  }

  lemma {:induction false} NextNodeTells(h: Hasher, a: Snippet, b: Snippet, k: nat, skip: bool)
    requires IsFree(h) && k < |a.nodes| && k < |b.nodes| && a.nodes[k].nodeType == b.nodes[k].nodeType
    ensures NextTells(h, a, b, k, skip)
  {
    NodeTells(h, SignatureOf(h, a, k, skip), SignatureOf(h, b, k, skip), a, b, k, skip);
  }

  /** Two runs that meet again only if they met before and the step was the same. */
  lemma {:induction false} RunsTell(v: seq<nat>, w: seq<nat>, same: seq<bool>, n: nat)
    requires n <= |same| && |v| == |w| == |same| + 1 && v[0] == w[0]
    requires forall k :: 0 <= k < |same| ==> (v[k + 1] == w[k + 1] <==> v[k] == w[k] && same[k])
    ensures v[n] == w[n] <==> forall i :: 0 <= i < n ==> same[i]
  {
    if n > 0 {
      RunsTell(v, w, same, n - 1);
      assert v[n - 1 + 1] == w[n - 1 + 1] <==> v[n - 1] == w[n - 1] && same[n - 1];
    }
  }

  ghost function Signatures(h: Hasher, a: Snippet, skip: bool): (r: seq<nat>)
    ensures |r| == |a.nodes| + 1 && forall k: nat :: k <= |a.nodes| ==> r[k] == SignatureOf(h, a, k, skip)
  {
    seq(|a.nodes| + 1, k requires 0 <= k <= |a.nodes| => SignatureOf(h, a, k, skip))
  }

  ghost function Agreements(a: Snippet, b: Snippet, skip: bool): (r: seq<bool>)
    requires |a.nodes| == |b.nodes|
    ensures |r| == |a.nodes| && forall i :: 0 <= i < |r| ==> r[i] == FieldsAgree(a, b, i, skip)
  {
    seq(|a.nodes|, i requires 0 <= i < |a.nodes| => FieldsAgree(a, b, i, skip))
  }

  lemma {:induction false} StepTells(h: Hasher, a: Snippet, b: Snippet, skip: bool, k: nat)
    requires |a.nodes| == |b.nodes| && k < |a.nodes| && NextTells(h, a, b, k, skip)
    ensures
      Signatures(h, a, skip)[k + 1] == Signatures(h, b, skip)[k + 1]
      <==> Signatures(h, a, skip)[k] == Signatures(h, b, skip)[k] && Agreements(a, b, skip)[k]
  {
  }

  /**
    With hash functions that lose nothing, snippets of one length whose node types agree have one signature
    exactly if all their nodes agree in what is hashed.
  */
  lemma {:induction false} SignatureTells(h: Hasher, a: Snippet, b: Snippet, skip: bool)
    requires IsFree(h) && |a.nodes| == |b.nodes| && SameTypes(a, b, |a.nodes|)
    ensures SignatureOf(h, a, |a.nodes|, skip) == SignatureOf(h, b, |b.nodes|, skip)
      <==> forall i :: 0 <= i < |a.nodes| ==> FieldsAgree(a, b, i, skip)
  {
    var v, w, same := Signatures(h, a, skip), Signatures(h, b, skip), Agreements(a, b, skip);
    forall k: nat | k < |a.nodes|
      ensures v[k + 1] == w[k + 1] <==> v[k] == w[k] && same[k]
    {
      NextNodeTells(h, a, b, k, skip);
      StepTells(h, a, b, skip, k);
    }
    assert v[0] == SignatureOf(h, a, 0, skip) && w[0] == SignatureOf(h, b, 0, skip);
    RunsTell(v, w, same, |a.nodes|);
  }
}
