/** Strings as the SKILL code uses them: the alphabetic order, sorting, joining with a
    one-character separator, and cutting at the first occurrence of a character. */
module Text {
  datatype Option<+T> = None | Some(value: T)

  // ---- order and sorting (alphalessp) ----

  predicate Leq(a: string, b: string) {
    a == [] || (b != [] && (a[0] < b[0] || (a[0] == b[0] && Leq(a[1..], b[1..]))))
  }

  /** a and b agree on k characters, and there a ends or has the smaller character. */
  predicate Decides(a: string, b: string, k: nat) {
    k <= |a| && k <= |b| && a[..k] == b[..k] && (k == |a| || (k < |b| && a[k] < b[k]))
  }

  lemma {:induction false} LeqWhere(a: string, b: string) returns (k: nat)
    requires Leq(a, b)
    ensures Decides(a, b, k)
  {
    if a == [] || a[0] < b[0] {
      k := 0;
    } else {
      k := LeqWhere(a[1..], b[1..]);
      assert a[..k + 1] == [a[0]] + a[1..][..k] && b[..k + 1] == [b[0]] + b[1..][..k];
      k := k + 1;
    }
  }

  lemma {:induction false} LeqBy(a: string, b: string, k: nat)
    requires Decides(a, b, k)
    ensures Leq(a, b)
  {
    if k == 0 {
    } else {
      assert a[0] == a[..k][0] == b[..k][0] == b[0];
      assert a[1..][..k - 1] == a[..k][1..] && b[1..][..k - 1] == b[..k][1..];
      LeqBy(a[1..], b[1..], k - 1);
    }
  }

  /** Alphabetic order: a prefix comes first, otherwise the first different character decides. */
  lemma LeqIff(a: string, b: string)
    ensures Leq(a, b) <==> exists k :: Decides(a, b, k)
  {
    if Leq(a, b) {
      var k := LeqWhere(a, b);
    }
    if k :| Decides(a, b, k) {
      LeqBy(a, b, k);
    }
  }

  lemma {:induction false} LeqTotal(a: string, b: string)
    ensures Leq(a, b) || Leq(b, a)
  {
    if a == [] || b == [] {
    } else {
      LeqTotal(a[1..], b[1..]);
    }
  }

  lemma {:induction false} LeqAntisymmetric(a: string, b: string)
    requires Leq(a, b) && Leq(b, a)
    ensures a == b
  {
    if a == [] || b == [] {
    } else {
      LeqAntisymmetric(a[1..], b[1..]);
      assert a == [a[0]] + a[1..] && b == [b[0]] + b[1..];
    }
  }

  lemma {:induction false} LeqTransitive(a: string, b: string, c: string)
    requires Leq(a, b) && Leq(b, c)
    ensures Leq(a, c)
  {
    if a != [] && a[0] == b[0] == c[0] {
      LeqTransitive(a[1..], b[1..], c[1..]);
    }
  }

  function Insert(x: string, s: seq<string>): seq<string> {
    if s == [] then [x]
    else if Leq(x, s[0]) then [x] + s
    else [s[0]] + Insert(x, s[1..])
  }

  function Sort(s: seq<string>): seq<string> {
    if s == [] then [] else Insert(s[0], Sort(s[1..]))
  }

  ghost predicate Sorted(s: seq<string>) {
    forall i, j :: 0 <= i < j < |s| ==> Leq(s[i], s[j])
  }

  lemma {:induction false} InsertPermutes(x: string, s: seq<string>)
    ensures multiset(Insert(x, s)) == multiset{x} + multiset(s)
  {
    if s == [] {
    } else {
      assert s == [s[0]] + s[1..];
      InsertPermutes(x, s[1..]);
    }
  }

  lemma {:induction false} SortPermutes(s: seq<string>)
    ensures multiset(Sort(s)) == multiset(s)
  {
    if s == [] {
    } else {
      assert s == [s[0]] + s[1..];
      SortPermutes(s[1..]);
      InsertPermutes(s[0], Sort(s[1..]));
    }
  }

  lemma {:induction false} InsertSorted(x: string, s: seq<string>)
    requires Sorted(s)
    ensures Sorted(Insert(x, s))
  {
    hide Leq;
    if s == [] {
    } else {
      if Leq(x, s[0]) {
        forall j | 0 <= j < |s|
          ensures Leq(x, s[j])
        {
          if j > 0 {
            LeqTransitive(x, s[0], s[j]);
          }
        }
      } else {
        LeqTotal(x, s[0]);
        InsertSorted(x, s[1..]);
        var t := Insert(x, s[1..]);
        InsertPermutes(x, s[1..]);
        forall j | 0 <= j < |t|
          ensures Leq(s[0], t[j])
        {
          assert t[j] in multiset(t);
          if t[j] != x {
            assert t[j] in s[1..];
          }
        }
      }
    }
  }

  lemma {:induction false} SortSorted(s: seq<string>)
    ensures Sorted(Sort(s))
  {
    if s == [] {
    } else {
      SortSorted(s[1..]);
      InsertSorted(s[0], Sort(s[1..]));
    }
  }

  lemma HeadLeast(s: seq<string>, x: string)
    requires Sorted(s) && x in s
    ensures Leq(s[0], x)
  {
    var j :| 0 <= j < |s| && s[j] == x;
    if j == 0 {
      LeqTotal(x, x);
    }
  }

  lemma Tail(s: seq<string>)
    requires s != []
    ensures multiset(s[1..]) == multiset(s) - multiset{s[0]}
    ensures Sorted(s) ==> Sorted(s[1..])
  {
    assert s == [s[0]] + s[1..];
  }

  lemma SameHead(a: seq<string>, b: seq<string>)
    requires Sorted(a) && Sorted(b) && multiset(a) == multiset(b) && a != []
    ensures b != [] && a[0] == b[0]
  {
    hide Leq, Sorted;
    assert a[0] in multiset(b) && b != [];
    assert b[0] in multiset(a);
    HeadLeast(a, b[0]);
    HeadLeast(b, a[0]);
    LeqAntisymmetric(a[0], b[0]);
  }

  lemma {:induction false} SortedUnique(a: seq<string>, b: seq<string>)
    requires Sorted(a) && Sorted(b) && multiset(a) == multiset(b)
    ensures a == b
  {
    hide Sorted;
    if a == [] {
      assert |multiset(b)| == 0;
    } else {
      SameHead(a, b);
      Tail(a);
      Tail(b);
      SortedUnique(a[1..], b[1..]);
      assert a == [a[0]] + a[1..] && b == [b[0]] + b[1..];
    }
  }

  /** Sorted lists agree exactly when the lists hold the same strings equally often. */
  lemma SortCanonical(a: seq<string>, b: seq<string>)
    ensures Sort(a) == Sort(b) <==> multiset(a) == multiset(b)
  {
    SortPermutes(a);
    SortPermutes(b);
    if multiset(a) == multiset(b) {
      SortSorted(a);
      SortSorted(b);
      SortedUnique(Sort(a), Sort(b));
    }
  }

  ghost predicate Distinct<T>(s: seq<T>) {
    forall i, j :: 0 <= i < j < |s| ==> s[i] != s[j]
  }

  lemma {:induction false} DistinctCount<T>(s: seq<T>, x: T)
    requires Distinct(s)
    ensures multiset(s)[x] == if x in s then 1 else 0
  {
    if s == [] {
    } else {
      DistinctCount(s[1..], x);
      assert s == [s[0]] + s[1..];
    }
  }

  /** For lists without repetition being the same set is enough. */
  lemma SortCanonicalSet(a: seq<string>, b: seq<string>)
    requires Distinct(a) && Distinct(b)
    ensures Sort(a) == Sort(b) <==> (forall x :: x in a <==> x in b)
  {
    SortCanonical(a, b);
    if forall x :: x in a <==> x in b {
      forall x
        ensures multiset(a)[x] == multiset(b)[x]
      {
        DistinctCount(a, x);
        DistinctCount(b, x);
      }
      assert multiset(a) == multiset(b);
    }
    if multiset(a) == multiset(b) {
      forall x
        ensures x in a <==> x in b
      {
        assert x in a <==> x in multiset(a);
        assert x in b <==> x in multiset(b);
      }
    }
  }

  lemma SortMembers(s: seq<string>, x: string)
    ensures x in Sort(s) <==> x in s
  {
    SortPermutes(s);
    assert x in Sort(s) <==> x in multiset(Sort(s));
  }

  // ---- cutting and joining ----

  /** The part of s before the first c; all of s when there is none. */
  function Before(s: string, c: char): string {
    if s == [] || s[0] == c then [] else [s[0]] + Before(s[1..], c)
  }

  /** The part of s after the first c; nothing when there is none. */
  function After(s: string, c: char): string {
    if s == [] then [] else if s[0] == c then s[1..] else After(s[1..], c)
  }

  lemma {:induction false} CutAt(x: string, c: char, y: string)
    requires c !in x
    ensures Before(x + [c] + y, c) == x && After(x + [c] + y, c) == y
  {
    var s := x + [c] + y;
    if x == [] {
      assert s[1..] == y;
    } else {
      assert s[1..] == x[1..] + [c] + y;
      CutAt(x[1..], c, y);
      assert x == [x[0]] + x[1..];
    }
  }

  lemma {:induction false} CutWhole(x: string, c: char)
    requires c !in x
    ensures Before(x, c) == x && After(x, c) == []
  {
    if x == [] {
    } else {
      CutWhole(x[1..], c);
      assert x == [x[0]] + x[1..];
    }
  }

  /** A string is cut in one way only at a character its first part lacks. */
  lemma CutUnique(x: string, c: char, y: string, x': string, y': string)
    requires c !in x && c !in x' && x + [c] + y == x' + [c] + y'
    ensures x == x' && y == y'
  {
    CutAt(x, c, y);
    CutAt(x', c, y');
  }

  /** buildString with a one-character separator. */
  function Join(parts: seq<string>, sep: char): string {
    if parts == [] then ""
    else if |parts| == 1 then parts[0]
    else parts[0] + [sep] + Join(parts[1..], sep)
  }

  lemma JoinEmpty(a: seq<string>, sep: char)
    requires forall x :: x in a ==> x != ""
    ensures Join(a, sep) == "" <==> a == []
  {
    if a != [] {
      assert a[0] in a;
    }
  }

  lemma JoinCut(a: seq<string>, sep: char)
    requires a != [] && sep !in a[0]
    ensures Before(Join(a, sep), sep) == a[0]
    ensures After(Join(a, sep), sep) == Join(a[1..], sep)
  {
    if |a| == 1 {
      CutWhole(a[0], sep);
    } else {
      CutAt(a[0], sep, Join(a[1..], sep));
    }
  }

  /** Joining loses nothing when no part is empty or holds the separator. */
  lemma {:induction false} JoinInjective(a: seq<string>, b: seq<string>, sep: char)
    requires forall x :: x in a ==> x != "" && sep !in x
    requires forall x :: x in b ==> x != "" && sep !in x
    requires Join(a, sep) == Join(b, sep)
    ensures a == b
  {
    if a == [] {
      JoinEmpty(b, sep);
    } else if b == [] {
      JoinEmpty(a, sep);
    } else {
      JoinCut(a, sep);
      JoinCut(b, sep);
      assert a[0] == b[0];
      if |a| > 1 || |b| > 1 {
        assert Join(a[1..], sep) == Join(b[1..], sep);
        JoinInjective(a[1..], b[1..], sep);
      }
      assert a == [a[0]] + a[1..] && b == [b[0]] + b[1..];
    }
  }

  // ---- parseString ----

  function SkipAll(s: string, c: char): (r: string)
    ensures |r| <= |s| && (r == "" || r[0] != c)
  {
    if s != [] && s[0] == c then SkipAll(s[1..], c) else s
  }

  lemma {:induction false} AfterShorter(s: string, c: char)
    requires s != ""
    ensures |After(s, c)| < |s|
  {
    if s[0] != c && |s| > 1 {
      AfterShorter(s[1..], c);
    }
  }

  /** The non-empty pieces of s between runs of c. */
  function Tokens(s: string, c: char): seq<string>
    decreases |s|
  {
    var t := SkipAll(s, c);
    if t == "" then [] else AfterShorter(t, c); [Before(t, c)] + Tokens(After(t, c), c)
  }

  lemma TokensCons(x: string, c: char, y: string)
    requires x != "" && c !in x
    ensures Tokens(x + [c] + y, c) == [x] + Tokens(y, c)
    ensures Tokens(x, c) == [x]
  {
    CutAt(x, c, y);
    CutWhole(x, c);
    assert (x + [c] + y)[0] == x[0];
    assert SkipAll(x + [c] + y, c) == x + [c] + y;
  }

  /** Runs of the separator, also in front, yield no empty piece. */
  lemma TokensSkip(c: char, y: string)
    ensures Tokens([c] + y, c) == Tokens(y, c) && Tokens("", c) == []
  {
    assert ([c] + y)[1..] == y;
  }

  // ---- decimal numerals ----

  predicate IsDigit(c: char) {
    '0' <= c <= '9'
  }

  predicate AllDigits(s: string) {
    s != "" && forall i :: 0 <= i < |s| ==> IsDigit(s[i])
  }

  function Dec(n: nat): string {
    if n < 10 then ['0' + n as char] else Dec(n / 10) + ['0' + (n % 10) as char]
  }

  function Num(s: string): nat
    requires forall i :: 0 <= i < |s| ==> IsDigit(s[i])
  {
    if s == "" then 0 else
    var k := |s| - 1;
    assert IsDigit(s[k]);
    10 * Num(s[..k]) + (s[k] as int - '0' as int)
  }

  lemma {:induction false} NumDec(n: nat)
    ensures AllDigits(Dec(n)) && Num(Dec(n)) == n
  {
    if n >= 10 {
      NumDec(n / 10);
      assert Dec(n)[..|Dec(n)| - 1] == Dec(n / 10);
    } else {
      assert Dec(n)[..0] == "";
    }
  }

  function Show(i: int): string {
    if i < 0 then "-" + Dec(-i) else Dec(i)
  }

  /** A whole string read as a decimal integer. */
  function Atoi(s: string): Option<int> {
    if AllDigits(s) then Some(Num(s))
    else if |s| > 1 && s[0] == '-' && AllDigits(s[1..]) then Some(0 - Num(s[1..]))
    else None
  }

  lemma AtoiShow(i: int)
    ensures Atoi(Show(i)) == Some(i)
  {
    NumDec(if i < 0 then -i else i);
    if i < 0 {
      assert Show(i)[1..] == Dec(-i);
      assert !IsDigit(Show(i)[0]);
    }
  }

  lemma ShowLiterals()
    ensures Show(0) == "0" && Show(120) == "120" && Show(-7) == "-7"
  {
    assert Dec(1) == "1" && Dec(12) == Dec(1) + "2" && Dec(120) == Dec(12) + "0";
  }
}
