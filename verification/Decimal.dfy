/** Decimal numerals as the Go standard library prints and reads them, and the
    `<base>-<k>` namespace names built from them. */
module Decimal {
  import opened Options

  predicate IsDigit(c: char) { '0' <= c <= '9' }

  predicate AllDigits(s: string) { forall k :: 0 <= k < |s| ==> IsDigit(s[k]) }

  function Digit(d: nat): (c: char)
    requires d < 10
    ensures IsDigit(c) && c as int - '0' as int == d
  {
    ('0' as int + d) as char
  }

  /** strconv.Itoa on a non-negative number. */
  function Itoa(n: nat): (s: string)
    ensures s != [] && AllDigits(s)
  {
    if n < 10 then [Digit(n)] else Itoa(n / 10) + [Digit(n % 10)]
  }

  function DigitsValue(s: string): nat
    requires AllDigits(s)
  {
    if s == [] then 0
    else 10 * DigitsValue(s[..|s| - 1]) + (s[|s| - 1] as int - '0' as int)
  }

  /** strconv.Atoi: an optional sign and at least one digit; None is the error. */
  function Atoi(s: string): Option<int> {
    var signed := s != [] && (s[0] == '-' || s[0] == '+');
    var digits := if signed then s[1..] else s;
    if digits == [] || !AllDigits(digits) then None
    else
      var value: int := DigitsValue(digits);
      Some(if signed && s[0] == '-' then -value else value)
  }

  lemma {:induction false} AtoiOfItoa(n: nat)
    ensures DigitsValue(Itoa(n)) == n && Atoi(Itoa(n)) == Some(n)
  {
    if n >= 10 {
      AtoiOfItoa(n / 10);
      var s := Itoa(n);
      assert s[..|s| - 1] == Itoa(n / 10);
    }
    assert IsDigit(Itoa(n)[0]);
  }

  /** A printed number has no leading zero. */
  lemma {:induction false} NoLeadingZero(n: nat)
    ensures |Itoa(n)| > 1 ==> Itoa(n)[0] != '0'
    ensures n > 0 ==> Itoa(n) != "0"
  {
    if n >= 10 {
      NoLeadingZero(n / 10);
    }
  }

  /** What Atoi reads: numerals with or without a sign, and leading zeros count for
      nothing. */
  lemma {:induction false} AtoiForms(digits: string)
    requires digits != [] && AllDigits(digits)
    ensures Atoi(digits) == Atoi("+" + digits) == Atoi("0" + digits) && Atoi(digits).Some?
    ensures Atoi("-" + digits) == Some(-Atoi(digits).value)
  {
    LeadingZero(digits);
    assert ("+" + digits)[1..] == digits && ("-" + digits)[1..] == digits;
    assert IsDigit(digits[0]);
  }

  lemma {:induction false} LeadingZero(digits: string)
    requires AllDigits(digits)
    ensures AllDigits("0" + digits) && DigitsValue("0" + digits) == DigitsValue(digits)
    decreases |digits|
  {
    var s := "0" + digits;
    if digits == [] {
      assert s[..0] == [];
    } else {
      LeadingZero(digits[..|digits| - 1]);
      assert s[..|s| - 1] == "0" + digits[..|digits| - 1];
    }
  }

  /** And what it refuses. */
  lemma AtoiRejects(s: string)
    ensures Atoi(s).None?
       <==> || s == "" || s == "+" || s == "-" || s[0] !in "+-0123456789"
            || exists k :: 0 < k < |s| && s[k] !in "0123456789"
  {
    DigitsListed();
    var signed := s != [] && (s[0] == '-' || s[0] == '+');
    if signed {
      assert forall k :: 0 <= k < |s[1..]| ==> s[1..][k] == s[k + 1];
      if k :| 0 < k < |s| && !IsDigit(s[k]) {
        assert s[1..][k - 1] == s[k];
      }
    }
    hide IsDigit;
  }

  lemma DigitsListed()
    ensures forall c :: IsDigit(c) <==> c in "0123456789"
  {
    forall c | IsDigit(c) ensures c in "0123456789" {
      assert c == "0123456789"[c as int - '0' as int];
    }
  }

  /** strings.LastIndex(s, "-") + 1. */
  function AfterLastDash(s: string): nat
    ensures AfterLastDash(s) <= |s|
  {
    if s == [] then 0
    else if s[|s| - 1] == '-' then |s|
    else AfterLastDash(s[..|s| - 1])
  }

  /** generateNamespace's format: the job namespace, a dash and the index. */
  function NamespaceName(base: string, index: nat): string {
    base + "-" + Itoa(index)
  }

  /** The key of churnNamespaces' natural sort: the number after the last dash,
      0 when there is none to read. */
  function Suffix(name: string): int {
    match Atoi(name[AfterLastDash(name)..])
    case Some(n) => n
    case None => 0
  }

  lemma {:induction false} DashBeforeDigits(prefix: string, digits: string)
    requires AllDigits(digits)
    ensures AfterLastDash(prefix + "-" + digits) == |prefix| + 1
  {
    var s := prefix + "-" + digits;
    if digits == [] {
      assert s[|s| - 1] == '-';
    } else {
      assert s[|s| - 1] == digits[|digits| - 1];
      assert s[..|s| - 1] == prefix + "-" + digits[..|digits| - 1];
      DashBeforeDigits(prefix, digits[..|digits| - 1]);
    }
  }

  /** The sort key of a generated name is exactly its namespace index. */
  lemma SuffixOfName(base: string, index: nat)
    ensures Suffix(NamespaceName(base, index)) == index
  {
    DashBeforeDigits(base, Itoa(index));
    AtoiOfItoa(index);
    var name := NamespaceName(base, index);
    assert name[|base| + 1..] == Itoa(index);
  }

  /** The sort key of any name: the number after its last dash, or the whole name's when it
      has none; 0 when that is not a number. */
  lemma SuffixOfAny(prefix: string, tail: string)
    requires '-' !in tail
    ensures Suffix(prefix + "-" + tail) == Suffix(tail) == if Atoi(tail).Some? then Atoi(tail).value else 0
  {
    LastDash(prefix + "-", tail);
    LastDash("", tail);
    assert "" + tail == tail;
  }

  lemma {:induction false} LastDash(prefix: string, tail: string)
    requires '-' !in tail && (prefix == "" || prefix[|prefix| - 1] == '-')
    ensures AfterLastDash(prefix + tail) == |prefix| && (prefix + tail)[|prefix|..] == tail
    decreases |tail|
  {
    if tail == [] {
      assert prefix + tail == prefix;
    } else {
      LastDash(prefix, tail[..|tail| - 1]);
      assert (prefix + tail)[..|prefix + tail| - 1] == prefix + tail[..|tail| - 1];
    }
  }

  /** Two names agree only when both the jobs' namespaces and the indices do. */
  lemma NamesOfBases(base1: string, j: nat, base2: string, k: nat)
    ensures NamespaceName(base1, j) == NamespaceName(base2, k) <==> base1 == base2 && j == k
  {
    SuffixOfName(base1, j);
    SuffixOfName(base2, k);
    hide Suffix, Itoa;
    var name, tail := NamespaceName(base1, j), "-" + Itoa(k);
    if name == NamespaceName(base2, k) {
      assert j == k && name == base1 + tail == base2 + tail;
      assert name[..|name| - |tail|] == base1 && name[..|name| - |tail|] == base2;
    }
  }

  lemma NamesDistinct(base: string, j: nat, k: nat)
    ensures NamespaceName(base, j) == NamespaceName(base, k) <==> j == k
  {
    SuffixOfName(base, j);
    SuffixOfName(base, k);
  }

  /** The names of the first n generated namespaces, in index order. */
  function Names(base: string, n: nat): (s: seq<string>)
    ensures |s| == n
  {
    seq(n, (k: nat) => NamespaceName(base, k))
  }
}
