/** Strings as the code uses them: joining with a separator, decimal numerals, ASCII case. */
module Text {

  /** `strings.Join` with a one-character separator. */
  function Join(parts: seq<string>, sep: char): string
  {
    if parts == [] then ""
    else if |parts| == 1 then parts[0]
    else parts[0] + [sep] + Join(parts[1..], sep)
  }

  predicate Without(s: string, c: char) {
    forall i :: 0 <= i < |s| ==> s[i] != c
  }

  predicate AllWithout(parts: seq<string>, c: char) {
    forall i :: 0 <= i < |parts| ==> Without(parts[i], c)
  }

  /** Where the first `c` of `s` stands, or the end of `s`. */
  function Cut(s: string, c: char): (k: nat)
    ensures k <= |s|
  {
    if s == [] || s[0] == c then 0 else 1 + Cut(s[1..], c)
  }

  lemma {:induction false} CutAfter(head: string, tail: string, c: char)
    requires Without(head, c) && (tail == [] || tail[0] == c)
    ensures Cut(head + tail, c) == |head|
  {
    if head == [] {
      assert head + tail == tail;
    } else {
      assert (head + tail)[1..] == head[1..] + tail;
      CutAfter(head[1..], tail, c);
    }
  }

  lemma JoinHead(xs: seq<string>, sep: char)
    requires xs != [] && AllWithout(xs, sep)
    ensures Cut(Join(xs, sep), sep) == |xs[0]| && Join(xs, sep)[..|xs[0]|] == xs[0]
    ensures |Join(xs, sep)| == |xs[0]| <==> |xs| == 1
    ensures |xs| > 1 ==> Join(xs, sep)[|xs[0]| + 1..] == Join(xs[1..], sep)
  {
    if |xs| == 1 {
      assert xs[0] + [] == xs[0];
      CutAfter(xs[0], [], sep);
    } else {
      assert Join(xs, sep) == xs[0] + ([sep] + Join(xs[1..], sep));
      CutAfter(xs[0], [sep] + Join(xs[1..], sep), sep);
    }
  }

  /** Joining loses nothing when no part holds the separator: the parts, and even how many of
      them there are, can be read back. */
  lemma {:induction false} JoinInjective(xs: seq<string>, ys: seq<string>, sep: char)
    requires xs != [] && ys != [] && AllWithout(xs, sep) && AllWithout(ys, sep)
    requires Join(xs, sep) == Join(ys, sep)
    ensures xs == ys
  {
    JoinHead(xs, sep);
    JoinHead(ys, sep);
    if |xs| > 1 {
      JoinInjective(xs[1..], ys[1..], sep);
      assert xs == [xs[0]] + xs[1..] && ys == [ys[0]] + ys[1..];
    }
  }

  /** Two neighbours and their separator join as the two neighbours do. */
  lemma {:induction false} JoinMerge(pre: seq<string>, u: string, v: string, post: seq<string>, sep: char)
    ensures Join(pre + [u, v] + post, sep) == Join(pre + [u + [sep] + v] + post, sep)
  {
    var two, one := pre + [u, v] + post, pre + [u + [sep] + v] + post;
    if pre == [] {
      assert two[1..] == [v] + post && one == [u + [sep] + v] + post;
      if post != [] {
        assert ([v] + post)[1..] == post && one[1..] == post;
      }
    } else {
      assert two[1..] == pre[1..] + [u, v] + post && one[1..] == pre[1..] + [u + [sep] + v] + post;
      JoinMerge(pre[1..], u, v, post, sep);
    }
  }

  /** A joined string holds at least the separators between the parts, and no others exactly when no
      part holds one. */
  lemma {:induction false} SeparatorCount(xs: seq<string>, sep: char)
    requires xs != []
    ensures multiset(Join(xs, sep))[sep] >= |xs| - 1
    ensures multiset(Join(xs, sep))[sep] == |xs| - 1 <==> AllWithout(xs, sep)
  {
    var n := multiset(xs[0])[sep];
    assert n == 0 <==> Without(xs[0], sep) by {
      assert sep in multiset(xs[0]) <==> sep in xs[0];
    }
    if |xs| > 1 {
      SeparatorCount(xs[1..], sep);
      assert multiset(Join(xs, sep)) == multiset(xs[0]) + multiset{sep} + multiset(Join(xs[1..], sep));
      assert AllWithout(xs, sep) <==> Without(xs[0], sep) && AllWithout(xs[1..], sep);
    }
  }

  /** Of two lists of one length with one joined form, it is enough that one is free of the
      separator. */
  lemma JoinFixesParts(xs: seq<string>, ys: seq<string>, sep: char)
    requires |xs| == |ys| && AllWithout(xs, sep) && Join(xs, sep) == Join(ys, sep)
    ensures xs == ys
  {
    if xs != [] {
      SeparatorCount(xs, sep);
      SeparatorCount(ys, sep);
      JoinInjective(xs, ys, sep);
    }
  }

  /** A part that holds the separator, cut there: the rest moves to the next part, and the joined
      form does not show it. */
  lemma MoveRight(xs: seq<string>, i: nat, sep: char) returns (u: string, w: string)
    requires i + 1 < |xs| && !Without(xs[i], sep)
    ensures |u| < |xs[i]| && Join(xs[i := u][i + 1 := w], sep) == Join(xs, sep)
  {
    var k :| 0 <= k < |xs[i]| && xs[i][k] == sep;
    var v := xs[i][k + 1..];
    u, w := xs[i][..k], v + [sep] + xs[i + 1];
    var pre, post := xs[..i], xs[i + 2..];
    JoinMerge(pre, u, v, [xs[i + 1]] + post, sep);
    JoinMerge(pre + [u], v, xs[i + 1], post, sep);
    assert xs[i] == u + [sep] + v;
    assert pre + [u + [sep] + v] + ([xs[i + 1]] + post) == xs;
    assert pre + [u] + [w] + post == xs[i := u][i + 1 := w];
    assert pre + [u, v] + ([xs[i + 1]] + post) == pre + [u] + [v, xs[i + 1]] + post;
  }

  /** The same to the left. */
  lemma MoveLeft(xs: seq<string>, i: nat, sep: char) returns (w: string, v: string)
    requires 0 < i < |xs| && !Without(xs[i], sep)
    ensures |v| < |xs[i]| && Join(xs[i - 1 := w][i := v], sep) == Join(xs, sep)
  {
    var k :| 0 <= k < |xs[i]| && xs[i][k] == sep;
    var u := xs[i][..k];
    w, v := xs[i - 1] + [sep] + u, xs[i][k + 1..];
    var pre, post := xs[..i - 1], xs[i + 1..];
    JoinMerge(pre, xs[i - 1], u, [v] + post, sep);
    JoinMerge(pre + [xs[i - 1]], u, v, post, sep);
    assert xs[i] == u + [sep] + v;
    assert pre + [xs[i - 1]] + [u + [sep] + v] + post == xs;
    assert pre + [w] + ([v] + post) == xs[i - 1 := w][i := v];
    assert pre + [xs[i - 1], u] + ([v] + post) == pre + [xs[i - 1]] + [u, v] + post;
  }

  function Digit(d: nat): char
    requires d < 10
  {
    ('0' as int + d) as char
  }

  /** The `%d` form of a non-negative number. */
  function Decimal(n: nat): string
  {
    if n < 10 then [Digit(n)] else Decimal(n / 10) + [Digit(n % 10)]
  }

  function Numeral(s: string): int
  {
    if s == [] then 0 else 10 * Numeral(s[..|s| - 1]) + (s[|s| - 1] as int - '0' as int)
  }

  lemma {:induction false} DecimalReadsBack(n: nat)
    ensures Decimal(n) != "" && Numeral(Decimal(n)) == n
    ensures forall i :: 0 <= i < |Decimal(n)| ==> '0' <= Decimal(n)[i] <= '9'
  {
    var s := Decimal(n);
    if n < 10 {
      assert s[..|s| - 1] == [];
    } else {
      DecimalReadsBack(n / 10);
      assert s[..|s| - 1] == Decimal(n / 10);
    }
  }

  lemma DecimalInjective(m: nat, n: nat)
    requires Decimal(m) == Decimal(n)
    ensures m == n
  {
    DecimalReadsBack(m);
    DecimalReadsBack(n);
  }

  // ----- ASCII case and surrounding space

  function LowerChar(c: char): char {
    if 'A' <= c <= 'Z' then (c as int + 32) as char else c
  }

  function Lower(s: string): string {
    seq(|s|, i requires 0 <= i < |s| => LowerChar(s[i]))
  }

  function UpperChar(c: char): char {
    if 'a' <= c <= 'z' then (c as int - 32) as char else c
  }

  function Upper(s: string): string {
    seq(|s|, i requires 0 <= i < |s| => UpperChar(s[i]))
  }

  /** `strings.EqualFold` on ASCII text. */
  predicate SameFold(a: string, b: string) {
    Lower(a) == Lower(b)
  }

  predicate Space(c: char) {
    c == ' ' || '\t' <= c <= '\r'
  }

  function TrimLeft(s: string): string {
    if s != [] && Space(s[0]) then TrimLeft(s[1..]) else s
  }

  function TrimRight(s: string): string {
    if s != [] && Space(s[|s| - 1]) then TrimRight(s[..|s| - 1]) else s
  }

  /** `strings.TrimSpace` on ASCII text. */
  function Trim(s: string): string {
    TrimRight(TrimLeft(s))
  }

  lemma {:induction false} TrimLeftLower(s: string)
    ensures TrimLeft(Lower(s)) == Lower(TrimLeft(s))
  {
    if s != [] && Space(s[0]) {
      assert Lower(s)[1..] == Lower(s[1..]);
      TrimLeftLower(s[1..]);
    }
  }

  lemma {:induction false} TrimRightLower(s: string)
    ensures TrimRight(Lower(s)) == Lower(TrimRight(s))
  {
    if s != [] && Space(s[|s| - 1]) {
      assert Lower(s)[..|s| - 1] == Lower(s[..|s| - 1]);
      TrimRightLower(s[..|s| - 1]);
    }
  }

  /** Trimming after lowering the case is lowering the case after trimming. */
  lemma TrimLower(s: string)
    ensures Trim(Lower(s)) == Lower(Trim(s))
  {
    TrimLeftLower(s);
    TrimRightLower(TrimLeft(s));
  }
}
