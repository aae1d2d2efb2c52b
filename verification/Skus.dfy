/** SKUs: slugs, and the search for one that is free. */
module Skus {

  const WIDTH := 64

  function DigitChar(d: nat): char
    requires d < 10
  {
    '0' + d as char
  }

  function Digits(n: nat): (s: string)
    ensures s != []
  {
    if n < 10 then [DigitChar(n)] else Digits(n / 10) + [DigitChar(n % 10)]
  }

  predicate IsDigit(c: char) { '0' <= c <= '9' }

  function ValueOf(s: string): int {
    if s == [] then 0 else 10 * ValueOf(s[..|s| - 1]) + (s[|s| - 1] as int - '0' as int)
  }

  lemma {:induction false} DigitsRoundTrip(n: nat)
    ensures ValueOf(Digits(n)) == n
    ensures forall i :: 0 <= i < |Digits(n)| ==> IsDigit(Digits(n)[i])
  {
    if n >= 10 {
      DigitsRoundTrip(n / 10);
      assert Digits(n)[..|Digits(n)| - 1] == Digits(n / 10);
    }
  }

  function Tail(n: nat): string { "-" + Digits(n) }

  /** Python's base[:k], where a negative k counts from the end. */
  function Head(base: string, k: int): string {
    if k >= |base| then base else if k >= 0 then base[..k] else if -k <= |base| then base[..|base| + k] else []
  }

  /** The n-th thing tried: the base cut to 64, then the base cut so that "-n" still fits. */
  function Candidate(base: string, n: nat): string {
    if n == 1 then Head(base, WIDTH) else Head(base, WIDTH - |Tail(n)|) + Tail(n)
  }

  lemma LastDash(s: string, p: nat, q: nat)
    requires p < |s| && q < |s| && s[p] == '-' && s[q] == '-'
    requires (forall i :: p < i < |s| ==> IsDigit(s[i])) && (forall i :: q < i < |s| ==> IsDigit(s[i]))
    ensures p == q
  {
  }

  lemma SameEnding(x: string, a: string, y: string, b: string)
    requires x + "-" + a == y + "-" + b
    requires (forall i :: 0 <= i < |a| ==> IsDigit(a[i])) && (forall i :: 0 <= i < |b| ==> IsDigit(b[i]))
    ensures a == b
  {
    var s, t := x + "-" + a, y + "-" + b;
    assert forall i :: |x| < i < |s| ==> s[i] == a[i - |x| - 1];
    assert forall i :: |y| < i < |t| ==> t[i] == b[i - |y| - 1];
    LastDash(s, |x|, |y|);
    assert a == s[|x| + 1..] && b == t[|y| + 1..];
  }

  /** Numbered candidates never repeat, truncation or not: what follows the last dash is the
      number. */
  lemma CandidatesDiffer(base: string, m: nat, n: nat)
    requires m >= 2 && n >= 2 && Candidate(base, m) == Candidate(base, n)
    ensures m == n
  {
    var x, y := Head(base, WIDTH - |Tail(m)|), Head(base, WIDTH - |Tail(n)|);
    DigitsRoundTrip(m);
    DigitsRoundTrip(n);
    assert Candidate(base, m) == x + "-" + Digits(m) && Candidate(base, n) == y + "-" + Digits(n);
    SameEnding(x, Digits(m), y, Digits(n));
  }

  /** The first candidate has no number.  It is one of the numbered ones again exactly when
      the base fills the column and its last characters there already read "-n". */
  lemma FirstCandidateRepeatsIff(base: string, n: nat)
    requires n >= 2 && |Tail(n)| <= WIDTH
    ensures Candidate(base, 1) == Candidate(base, n)
            <==> |base| >= WIDTH && base[WIDTH - |Tail(n)|..WIDTH] == Tail(n)
  {
    if |base| >= WIDTH {
      var cut := WIDTH - |Tail(n)|;
      var first, again := base[..WIDTH], base[..cut] + Tail(n);
      assert first == base[..cut] + base[cut..WIDTH];
      assert first[cut..] == base[cut..WIDTH] && again[cut..] == Tail(n);
    } else {
      assert |Candidate(base, 1)| < |Candidate(base, n)|;
    }
  }

  function Pow10(k: nat): nat { if k == 0 then 1 else 10 * Pow10(k - 1) }

  lemma {:induction false} DigitsLength(n: nat, k: nat)
    requires k >= 1 && n < Pow10(k)
    ensures |Digits(n)| <= k
  {
    if n >= 10 { DigitsLength(n / 10, k - 1); }
  }

  lemma CandidateFits(base: string, n: nat)
    requires n < Pow10(WIDTH - 1)
    ensures |Candidate(base, n)| <= WIDTH
  {
    DigitsLength(n, WIDTH - 1);
  }

  // ------------------------------------------------------------ the search

  /** The numbered candidates below n. */
  function Tried(base: string, n: nat): set<string> { set i | 2 <= i < n :: Candidate(base, i) }

  lemma TriedGrows(base: string, n: nat)
    requires n >= 1
    ensures n == 1 ==> Tried(base, 2) == {} == Tried(base, 1)
    ensures n >= 2 ==>
            Candidate(base, n) !in Tried(base, n) && Tried(base, n + 1) == Tried(base, n) + {Candidate(base, n)}
  {
    if n >= 2 && Candidate(base, n) in Tried(base, n) {
      var i :| 2 <= i < n && Candidate(base, i) == Candidate(base, n);
      CandidatesDiffer(base, i, n);
    }
  }

  lemma {:induction false} TriedCount(base: string, n: nat)
    requires n >= 2
    ensures |Tried(base, n)| == n - 2
  {
    if n > 2 {
      TriedCount(base, n - 1);
      TriedGrows(base, n - 1);
    } else {
      assert Tried(base, 2) == {};
    }
  }

  lemma FewerLeft(base: string, used: set<string>, n: nat)
    requires n >= 2 && Candidate(base, n) in used
    ensures |used - Tried(base, n + 1)| < |used - Tried(base, n)|
  {
    TriedGrows(base, n);
    assert used - Tried(base, n) == (used - Tried(base, n + 1)) + {Candidate(base, n)};
  }

  /** The number of the first free candidate from the n-th on: the taken SKUs run out before
      the numbers do. */
  function FirstFree(base: string, used: set<string>, n: nat): (r: nat)
    requires n >= 1
    ensures r >= n && Candidate(base, r) !in used
    ensures forall i :: n <= i < r ==> Candidate(base, i) in used
    decreases if n == 1 then 1 else 0, |used - Tried(base, n)|
  {
    if Candidate(base, n) !in used then n
    else if n == 1 then FirstFree(base, used, 2)
    else
      FewerLeft(base, used, n);
      FirstFree(base, used, n + 1)
  }

  function UniqueSku(base: string, used: set<string>): string { Candidate(base, FirstFree(base, used, 1)) }

  lemma SubsetSize(a: set<string>, b: set<string>)
    requires a <= b
    ensures |a| <= |b|
  {
    assert b == a + (b - a);
  }

  /** The SKU is free, found within two tries more than there are SKUs, and 64 characters at
      most while those number under 10^63. */
  lemma UniqueSkuIsFree(base: string, used: set<string>)
    ensures UniqueSku(base, used) !in used
    ensures 1 <= FirstFree(base, used, 1) <= |used| + 2
    ensures |used| + 2 < Pow10(WIDTH - 1) ==> |UniqueSku(base, used)| <= WIDTH
  {
    var r := FirstFree(base, used, 1);
    if r >= 2 {
      TriedCount(base, r);
      SubsetSize(Tried(base, r), used);
    }
    if |used| + 2 < Pow10(WIDTH - 1) { CandidateFits(base, r); }
  }

  /** The loop: it ends because the pigeonhole measure bounds the first free number. */
  method FindSku(base: string, used: set<string>) returns (sku: string)
    ensures sku == UniqueSku(base, used)
  {
    ghost var free := FirstFree(base, used, 1);
    sku := Head(base, WIDTH);
    var n := 1;
    while sku in used
      invariant 1 <= n <= free && sku == Candidate(base, n)
      decreases free - n
    {
      n := n + 1;
      var tail := Tail(n);
      sku := Head(base, WIDTH - |tail|) + tail;
    }
  }

  // ----------------------------------------------------------------- slugs

  predicate Alphanumeric(c: char) { 'A' <= c <= 'Z' || 'a' <= c <= 'z' || '0' <= c <= '9' }

  function Upper(c: char): char { if 'a' <= c <= 'z' then (c as int - 'a' as int + 'A' as int) as char else c }

  /** Every run of other characters becomes one dash. */
  function Dashed(s: string): string {
    if s == [] then []
    else
      var front, c := Dashed(s[..|s| - 1]), s[|s| - 1];
      if Alphanumeric(c) then front + [Upper(c)]
      else if front != [] && front[|front| - 1] == '-' then front else front + ['-']
  }

  function StripDashes(s: string): string {
    if s != [] && s[0] == '-' then StripDashes(s[1..])
    else if s != [] && s[|s| - 1] == '-' then StripDashes(s[..|s| - 1])
    else s
  }

  function Slug(value: string): string {
    var cleaned := StripDashes(Dashed(value));
    if cleaned == [] then "ITEM" else cleaned
  }

  predicate SlugChars(s: string) {
    && (forall i :: 0 <= i < |s| ==> s[i] == '-' || 'A' <= s[i] <= 'Z' || '0' <= s[i] <= '9')
    && (forall i :: 0 <= i < |s| - 1 ==> s[i] != '-' || s[i + 1] != '-')
  }

  lemma {:induction false} DashedChars(s: string)
    ensures SlugChars(Dashed(s))
  {
    if s != [] { DashedChars(s[..|s| - 1]); }
  }

  lemma {:induction false} StrippedChars(s: string)
    requires SlugChars(s)
    ensures var t := StripDashes(s); SlugChars(t) && (t != [] ==> t[0] != '-' && t[|t| - 1] != '-')
    decreases |s|
  {
    if s != [] && s[0] == '-' {
      StrippedChars(s[1..]);
    } else if s != [] && s[|s| - 1] == '-' {
      StrippedChars(s[..|s| - 1]);
    }
  }

  /** A slug is never empty: upper-case letters and digits, single dashes between them. */
  lemma SlugIsClean(value: string)
    ensures var s := Slug(value); s != [] && SlugChars(s) && s[0] != '-' && s[|s| - 1] != '-'
  {
    DashedChars(value);
    StrippedChars(Dashed(value));
    ItemIsClean();
  }

  lemma ItemIsClean()
    ensures var s: string := "ITEM"; s != [] && SlugChars(s) && s[0] != '-' && s[|s| - 1] != '-'
  {
  }
}
