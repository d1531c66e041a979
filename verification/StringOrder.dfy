/** The order of Go's `<` on strings. */
module StringOrder {

  /** The order of the rests from position `i`, up to which the strings agree. */
  predicate LessFrom(a: string, b: string, i: nat)
    requires i <= |a| && i <= |b|
    decreases |b| - i
  {
    i < |b| && (i == |a| || a[i] < b[i] || (a[i] == b[i] && LessFrom(a, b, i + 1)))
  }

  predicate Less(a: string, b: string)
  {
    LessFrom(a, b, 0)
  }

  lemma {:induction false} TrichotomyFrom(a: string, b: string, i: nat)
    requires i <= |a| && i <= |b| && a[..i] == b[..i]
    ensures LessFrom(a, b, i) || a == b || LessFrom(b, a, i)
    ensures !(LessFrom(a, b, i) && LessFrom(b, a, i))
    decreases |b| - i
  {
    if i < |a| && i < |b| && a[i] == b[i] {
      assert a[..i + 1] == a[..i] + [a[i]] && b[..i + 1] == b[..i] + [b[i]];
      TrichotomyFrom(a, b, i + 1);
    } else if i == |a| && i == |b| {
      assert a[..i] == a && b[..i] == b;
    }
  }

  lemma Trichotomy(a: string, b: string)
    ensures Less(a, b) || a == b || Less(b, a)
    ensures !(Less(a, b) && Less(b, a)) && !Less(a, a)
  {
    TrichotomyFrom(a, b, 0);
    TrichotomyFrom(a, a, 0);
  }

  lemma {:induction false} TransitiveFrom(a: string, b: string, c: string, i: nat)
    requires i <= |a| && i <= |b| && i <= |c| && LessFrom(a, b, i) && LessFrom(b, c, i)
    ensures LessFrom(a, c, i)
    decreases |c| - i
  {
    if i < |a| && a[i] == b[i] && b[i] == c[i] {
      TransitiveFrom(a, b, c, i + 1);
    }
  }

  lemma Transitive(a: string, b: string, c: string)
    requires Less(a, b) && Less(b, c)
    ensures Less(a, c)
  {
    TransitiveFrom(a, b, c, 0);
  }
}
