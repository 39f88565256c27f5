/** The order of the rows of a saved trust store, character by character. */
module TrustOrder {
  import opened TrustText

  /** At the first place where the texts differ, `a` ends or has the smaller character. */
  ghost predicate Before(a: string, b: string) {
    exists k :: && 0 <= k <= |a| && k < |b| && a[..k] == b[..k]
                && (k == |a| || a[k] < b[k])
  }

  lemma BeforeAt(a: string, b: string, k: nat)
    requires k <= |a| && k < |b| && a[..k] == b[..k] && (k == |a| || a[k] < b[k])
    ensures Before(a, b)
  {
  }

  lemma {:induction false} LeqDiffers(a: string, b: string) returns (k: nat)
    requires Leq(a, b) && a != b
    ensures k <= |a| && k < |b| && a[..k] == b[..k] && (k == |a| || a[k] < b[k])
  {
    if a == [] || a[0] != b[0] {
      k := 0;
    } else {
      assert a == [a[0]] + a[1..] && b == [b[0]] + b[1..];
      var i := LeqDiffers(a[1..], b[1..]);
      k := i + 1;
      assert a[..k] == [a[0]] + a[1..][..i] && b[..k] == [b[0]] + b[1..][..i];
    }
  }

  lemma {:induction false} DiffersLeq(a: string, b: string, k: nat)
    requires k <= |a| && k < |b| && a[..k] == b[..k] && (k == |a| || a[k] < b[k])
    ensures Leq(a, b) && a != b
  {
    if k > 0 {
      assert a[..k][0] == a[0] && b[..k][0] == b[0];
      assert a[1..][..k - 1] == a[..k][1..] && b[1..][..k - 1] == b[..k][1..];
      DiffersLeq(a[1..], b[1..], k - 1);
    }
  }

  lemma LeqExactly(a: string, b: string)
    ensures Leq(a, b) && a != b <==> Before(a, b)
  {
    hide Leq;
    if Leq(a, b) && a != b {
      var k := LeqDiffers(a, b);
      BeforeAt(a, b, k);
    }
    if k :| 0 <= k <= |a| && k < |b| && a[..k] == b[..k] && (k == |a| || a[k] < b[k]) {
      DiffersLeq(a, b, k);
    }
  }

  lemma SortedExactly(names: seq<string>)
    ensures Sorted(names) <==> forall i, j :: 0 <= i < j < |names| ==> Before(names[i], names[j])
  {
    hide Leq, Before;
    forall i, j | 0 <= i < j < |names|
      ensures Leq(names[i], names[j]) && names[i] != names[j] <==> Before(names[i], names[j])
    {
      LeqExactly(names[i], names[j]);
    }
  }
}
