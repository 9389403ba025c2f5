/** String helpers shared by the models: searching, joining with a separator,
    QString's ordering and decimal formatting of integers. */
module Text {

  import opened Wrappers

  /** QString::indexOf(c, from) and strchr: the first position at or after `from`
      holding `c`, or None. */
  function IndexOf(s: string, c: char, from: nat): (r: Option<nat>)
    requires from <= |s|
    ensures r.Some? ==> from <= r.value < |s| && s[r.value] == c
    ensures r.Some? ==> forall j :: from <= j < r.value ==> s[j] != c
    ensures r.None? ==> forall j :: from <= j < |s| ==> s[j] != c
    decreases |s| - from
  {
    if from == |s| then None
    else if s[from] == c then Some(from)
    else IndexOf(s, c, from + 1)
  }

  /** The pieces separated by `sep`: Join(["a", "b"], ", ") == "a, b". */
  function Join(pieces: seq<string>, sep: string): string
  {
    if |pieces| == 0 then ""
    else if |pieces| == 1 then pieces[0]
    else Join(pieces[..|pieces| - 1], sep) + sep + pieces[|pieces| - 1]
  }

  lemma JoinAppend(pieces: seq<string>, sep: string, x: string)
    requires pieces != []
    ensures Join(pieces + [x], sep) == Join(pieces, sep) + sep + x
  {
    assert (pieces + [x])[..|pieces|] == pieces;
  }

  /** Every character of the joined string comes from a piece or from a separator. */
  lemma {:induction false} JoinChars(pieces: seq<string>, sep: string, c: char)
    requires forall p :: p in pieces ==> c !in p
    requires c !in sep
    ensures c !in Join(pieces, sep)
  {
    if |pieces| > 1 {
      JoinChars(pieces[..|pieces| - 1], sep, c);
    }
  }

  /** A string is what comes before position i, the character there, and the rest. */
  lemma SplitAround(s: string, i: nat)
    requires i < |s|
    ensures s == s[..i] + [s[i]] + s[i + 1..]
  {
  }

  /** QString's operator<: lexicographic by character code. */
  predicate Less(a: string, b: string)
  {
    if |a| == 0 then |b| > 0
    else if |b| == 0 then false
    else if a[0] != b[0] then a[0] < b[0]
    else Less(a[1..], b[1..])
  }

  /** `a` does not sort after `b`: what std::ranges::sort leaves between neighbours
      when it is given the comparator `a < b`. */
  predicate LessOrEqual(a: string, b: string)
  {
    !Less(b, a)
  }

  lemma {:induction false} LessTotal(a: string, b: string)
    ensures Less(a, b) || Less(b, a) || a == b
  {
    if |a| > 0 && |b| > 0 && a[0] == b[0] {
      LessTotal(a[1..], b[1..]);
      if a[1..] == b[1..] {
        assert a == [a[0]] + a[1..] && b == [b[0]] + b[1..];
      }
    }
  }

  lemma {:induction false} LessTransitive(a: string, b: string, c: string)
    requires Less(a, b) && Less(b, c)
    ensures Less(a, c)
  {
    if |a| > 0 && |b| > 0 && |c| > 0 && a[0] == b[0] && b[0] == c[0] {
      LessTransitive(a[1..], b[1..], c[1..]);
    }
  }

  lemma {:induction false} LessIrreflexive(a: string)
    ensures !Less(a, a)
  {
    if |a| > 0 {
      LessIrreflexive(a[1..]);
    }
  }

  /** LessOrEqual is a total preorder (in fact a total order), which is what
      sorting by category name needs. */
  lemma LessOrEqualIsTotalPreorder()
    ensures forall a, b :: LessOrEqual(a, b) || LessOrEqual(b, a)
    ensures forall a, b, c :: LessOrEqual(a, b) && LessOrEqual(b, c) ==> LessOrEqual(a, c)
  {
    forall a, b ensures LessOrEqual(a, b) || LessOrEqual(b, a) {
      LessTotal(a, b);
      if Less(a, b) && Less(b, a) {
        LessTransitive(a, b, a);
        LessIrreflexive(a);
      }
    }
    forall a, b, c | LessOrEqual(a, b) && LessOrEqual(b, c) ensures LessOrEqual(a, c) {
      if Less(c, a) {
        LessTotal(b, c);
        LessTotal(a, b);
        if Less(c, b) {
        } else if b == c {
        } else {
          LessTransitive(b, c, a);
        }
      }
    }
  }

  /** The decimal digit for 0 <= d < 10. */
  function Digit(d: nat): (c: char)
    requires d < 10
    ensures '0' <= c <= '9' && c as int - '0' as int == d
  {
    ['0', '1', '2', '3', '4', '5', '6', '7', '8', '9'][d]
  }

  /** QString::arg(int) for a non-negative integer: its decimal digits, no leading zero. */
  function NatToString(n: nat): (s: string)
    ensures |s| > 0
    ensures forall i :: 0 <= i < |s| ==> '0' <= s[i] <= '9'
    ensures |s| > 1 ==> s[0] != '0'
    ensures n < 10 <==> |s| == 1
    decreases n
  {
    if n < 10 then [Digit(n)] else NatToString(n / 10) + [Digit(n % 10)]
  }

  /** The value of a string of decimal digits. */
  function ParseDecimal(s: string): nat
    requires forall i :: 0 <= i < |s| ==> '0' <= s[i] <= '9'
  {
    if |s| == 0 then 0
    else ParseDecimal(s[..|s| - 1]) * 10 + (s[|s| - 1] as int - '0' as int)
  }

  /** Formatting a number and reading it back gives the number: NatToString is injective. */
  lemma {:induction false} ParseNatToString(n: nat)
    ensures ParseDecimal(NatToString(n)) == n
    decreases n
  {
    if n >= 10 {
      ParseNatToString(n / 10);
      var s := NatToString(n);
      assert s[..|s| - 1] == NatToString(n / 10);
    }
  }
}
