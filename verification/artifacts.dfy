/**
  The `Artifact` base class and the `RegexMatch` leaf of ctparse/types.py.

  Every artifact remembers the character range [mstart, mend) of the input
  text it was built from. The grammar re-derives that range in place when it
  composes several children into a parent (`update_span`).
 */
module Artifacts {

  /** The span bookkeeping shared by every artifact. */
  class Artifact {
    var mstart: int
    var mend: int

    /** A fresh artifact covers the empty span 0..0. */
    constructor ()
      ensures mstart == 0 && mend == 0
    {
      mstart := 0;
      mend := 0;
    }

    /**
      `update_span(*args)`: the span runs from the first child's start to the
      last child's end; the artifact itself is returned for fluent use. When
      the children are in text order, every one of them lies inside the new span,
      so none is longer than the parent.
     */
    method UpdateSpan(args: seq<Artifact>) returns (self: Artifact)
      requires |args| >= 1
      modifies this
      ensures self == this
      ensures mstart == old(args[0].mstart) && mend == old(args[|args| - 1].mend)
      ensures old(Ordered(args)) ==>
                mstart <= mend &&
                forall k :: 0 <= k < |args| ==>
                  && mstart <= old(args[k].mstart) && old(args[k].mend) <= mend
                  && old(args[k].mend - args[k].mstart) <= Len()
    {
      if Ordered(args) {
        forall k | 0 <= k < |args|
          ensures args[0].mstart <= args[k].mstart && args[k].mend <= args[|args| - 1].mend
        {
          StartsAfterFirst(args, k);
          EndsBeforeLast(args, k);
        }
      }
      mstart := args[0].mstart;
      mend := args[|args| - 1].mend;
      self := this;
    }

    /**
      `len(artifact)`: the number of characters covered. Python's `len`
      refuses a negative result, so the span must not be reversed.
     */
    function Len(): (n: nat)
      reads this
      requires mstart <= mend
      ensures mstart + n == mend
    {
      mend - mstart
    }

    /** `__eq__` over the base class's declared fields, mstart and mend;
        two artifacts are equal exactly when their hash keys are. */
    predicate Equal(other: Artifact)
      reads this, other
      ensures Equal(other) <==> Key() == other.Key()
    {
      mstart == other.mstart && mend == other.mend
    }

    /** The tuple that `__hash__` hashes. */
    function Key(): (int, int)
      reads this
    {
      (mstart, mend)
    }
  }

  /** Children in text order: each span is well formed and none starts
      before the previous one ends. */
  predicate Ordered(args: seq<Artifact>)
    reads args
  {
    && (forall i :: 0 <= i < |args| ==> args[i].mstart <= args[i].mend)
    && (forall i :: 0 < i < |args| ==> args[i - 1].mend <= args[i].mstart)
  }

  lemma {:induction false} StartsAfterFirst(args: seq<Artifact>, k: nat)
    requires Ordered(args) && k < |args|
    ensures args[0].mstart <= args[k].mstart
    decreases k
  {
    if k > 0 {
      StartsAfterFirst(args, k - 1);
      assert args[k - 1].mstart <= args[k - 1].mend <= args[k].mstart;
    }
  }

  lemma {:induction false} EndsBeforeLast(args: seq<Artifact>, k: nat)
    requires Ordered(args) && k < |args|
    ensures args[k].mend <= args[|args| - 1].mend
    decreases |args| - k
  {
    if k < |args| - 1 {
      EndsBeforeLast(args, k + 1);
      assert args[k].mend <= args[k + 1].mstart <= args[k + 1].mend;
    }
  }

  /** A child of children in text order is no longer than the span they
      cover together, which is the span `update_span` gives the parent. */
  lemma ChildNoLongerThanParent(args: seq<Artifact>, k: nat)
    requires Ordered(args) && k < |args|
    ensures args[k].Len() <= args[|args| - 1].mend - args[0].mstart
  {
    StartsAfterFirst(args, k);
    EndsBeforeLast(args, k);
  }

  /** The summed lengths of well-formed spans. */
  function TotalLen(args: seq<Artifact>): nat
    reads args
    requires forall i :: 0 <= i < |args| ==> args[i].mstart <= args[i].mend
  {
    if |args| == 0 then 0 else TotalLen(args[..|args| - 1]) + args[|args| - 1].Len()
  }

  /** Children in text order do not overlap, so their lengths add up to at
      most the length of the span they cover together. */
  lemma {:induction false} ChildrenFitInSpan(args: seq<Artifact>)
    requires Ordered(args) && |args| >= 1
    ensures TotalLen(args) <= args[|args| - 1].mend - args[0].mstart
    decreases |args|
  {
    var n := |args|;
    if n > 1 {
      var prefix := args[..n - 1];
      assert Ordered(prefix);
      ChildrenFitInSpan(prefix);
      assert TotalLen(prefix) <= args[n - 2].mend - args[0].mstart;
      assert args[n - 2].mend <= args[n - 1].mstart;
    }
  }

  /**
    The terminal leaf: one recognised token, the production `id` whose regex
    group matched, the group's span and the matched text. The text is carried
    but is not one of the declared fields, so it takes no part in equality.
   */
  datatype RegexMatch = RegexMatch(id: int, mstart: int, mend: int, text: string)
  {
    /** `__eq__` over the declared fields mstart, mend and id;
        equal matches have equal hash keys and conversely. */
    predicate Equal(other: RegexMatch)
      ensures Equal(other) <==> Key() == other.Key()
    {
      mstart == other.mstart && mend == other.mend && id == other.id
    }

    /** The tuple that `__hash__` hashes. */
    function Key(): (int, int, int)
    {
      (mstart, mend, id)
    }
  }

  /** Two matches are equal exactly when they differ at most in their text. */
  lemma MatchEqualityIgnoresText(m: RegexMatch, n: RegexMatch)
    ensures m.Equal(n) <==> m.(text := n.text) == n
  {
  }

}
