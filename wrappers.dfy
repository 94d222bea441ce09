/** Optional values, and applying a partial function to every element of a sequence. */
module Wrappers {

  datatype Option<+T> = None | Some(value: T) {

    /** The value held, or `default` when there is none (Rust's `unwrap_or`). */
    function GetOr(default: T): T
    {
      match this
      case Some(v) => v
      case None => default
    }
  }

  /** Applies `f` to every element in order; fails as a whole as soon as one element fails. */
  function Traverse<A, B>(s: seq<A>, f: A -> Option<B>): Option<seq<B>>
  {
    if |s| == 0 then Some([])
    else match f(s[0])
      case None => None
      case Some(b) =>
        match Traverse(s[1..], f)
        case None => None
        case Some(rest) => Some([b] + rest)
  }

  /** Traverse succeeds exactly when every element succeeds, and then it keeps one result per element, in order. */
  lemma {:induction false} TraverseSpec<A, B>(s: seq<A>, f: A -> Option<B>)
    ensures Traverse(s, f).Some? <==> forall i :: 0 <= i < |s| ==> f(s[i]).Some?
    ensures Traverse(s, f).Some? ==>
              |Traverse(s, f).value| == |s| &&
              forall i :: 0 <= i < |s| ==> f(s[i]) == Some(Traverse(s, f).value[i])
  {
    if |s| > 0 {
      TraverseSpec(s[1..], f);
      assert forall i :: 1 <= i < |s| ==> s[i] == s[1..][i - 1];
      if f(s[0]).Some? && Traverse(s[1..], f).Some? {
        var r := Traverse(s, f).value;
        assert forall i :: 1 <= i < |s| ==> r[i] == Traverse(s[1..], f).value[i - 1];
      }
    }
  }

  /** The result of a successful Traverse is determined by its elements. */
  lemma TraverseOfResults<A, B>(s: seq<A>, f: A -> Option<B>, r: seq<B>)
    requires |r| == |s|
    requires forall i :: 0 <= i < |s| ==> f(s[i]) == Some(r[i])
    ensures Traverse(s, f) == Some(r)
  {
    TraverseSpec(s, f);
    assert forall i :: 0 <= i < |s| ==> f(s[i]).Some?;
    var t := Traverse(s, f).value;
    assert forall i :: 0 <= i < |s| ==> t[i] == r[i];
    assert t == r;
  }
}
