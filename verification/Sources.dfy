/** Provenance labels and the rule that combines them. */
module Sources {

  function MergeCoverageSource(a: string, b: string): string {
    if a == "" then b
    else if b == "" || a == b then a
    else "mixed"
  }

  /** No label is below every label, and "mixed" is above every label. */
  predicate SourceLeq(a: string, b: string) {
    a == "" || a == b || b == "mixed"
  }

  lemma SourceOrder(a: string, b: string, c: string)
    ensures SourceLeq(a, a)
    ensures SourceLeq(a, b) && SourceLeq(b, a) ==> a == b
    ensures SourceLeq(a, b) && SourceLeq(b, c) ==> SourceLeq(a, c)
  {
  }

  /** Combining two labels gives their least upper bound. */
  lemma MergeIsJoin(a: string, b: string, u: string)
    ensures SourceLeq(a, MergeCoverageSource(a, b)) && SourceLeq(b, MergeCoverageSource(a, b))
    ensures SourceLeq(MergeCoverageSource(a, b), u) <==> SourceLeq(a, u) && SourceLeq(b, u)
  {
  }
}
