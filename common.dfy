/** Values a scraped record can hold. Python's NamedTuple does not enforce
    its type annotations, so a field holds whatever the raw field map held:
    `None`, a string, or (vinepair's free-text sections) a list of strings. */
module Values {

  datatype Option<+T> = None | Some(value: T)

  datatype Value = Null | Text(s: string) | Texts(items: seq<string>)

  lemma AppendAssociative<T>(a: seq<T>, b: seq<T>, c: seq<T>)
    ensures (a + b) + c == a + (b + c)
  {
  }

  lemma AppendNothing<T>(a: seq<T>)
    ensures a + [] == a
  {
  }

  /** The blocks numbered `lo + 1` to `hi`, one after another. */
  function Blocks<T>(lo: nat, hi: nat, block: nat -> seq<T>): seq<T>
    decreases hi
  {
    if hi <= lo then [] else Blocks(lo, hi - 1, block) + block(hi)
  }

  /** A run of blocks splits at any block boundary. */
  lemma {:induction false} BlocksSplit<T>(lo: nat, mid: nat, hi: nat, block: nat -> seq<T>)
    requires lo <= mid <= hi
    ensures Blocks(lo, hi, block) == Blocks(lo, mid, block) + Blocks(mid, hi, block)
    decreases hi
  {
    if hi == mid {
      AppendNothing(Blocks(lo, mid, block));
    } else {
      BlocksSplit(lo, mid, hi - 1, block);
      AppendAssociative(Blocks(lo, mid, block), Blocks(mid, hi - 1, block), block(hi));
    }
  }

  /** `[x]` when the page produced a record, `[]` when it was dropped. */
  function Appended<T>(o: Option<T>): (r: seq<T>)
    ensures |r| <= 1
    ensures r == [] <==> o.None?
    ensures o.Some? ==> r[0] == o.value
  {
    match o
    case None => []
    case Some(x) => [x]
  }
}

/** Character-level string operations used by the two field normalisers,
    the key lower-casing and the listing URLs. */
module Text {

  const NoBreakSpace: char := '\U{00A0}'

  /** `str.replace(c, '')` for every character `c` of `bad`: the characters
      of `s` not in `bad`, in their original order. */
  function Delete(s: string, bad: set<char>): (r: string)
    ensures |r| <= |s|
    ensures forall c :: c in r <==> c in s && c !in bad
  {
    if s == [] then []
    else (if s[0] in bad then [] else [s[0]]) + Delete(s[1..], bad)
  }

  lemma {:induction false} DeleteNothing(s: string, bad: set<char>)
    requires forall c :: c in s ==> c !in bad
    ensures Delete(s, bad) == s
  {
    if s != [] {
      assert s[0] in s;
      assert forall c :: c in s[1..] ==> c in s;
      DeleteNothing(s[1..], bad);
    }
  }

  /** Two successive `replace` passes delete the union of their characters. */
  lemma {:induction false} DeleteTwice(s: string, a: set<char>, b: set<char>)
    ensures Delete(Delete(s, a), b) == Delete(s, a + b)
  {
    if s != [] {
      DeleteTwice(s[1..], a, b);
      var head := if s[0] in a then [] else [s[0]];
      calc {
        Delete(Delete(s, a), b);
        Delete(head + Delete(s[1..], a), b);
        { DeleteAppend(head, Delete(s[1..], a), b); }
        Delete(head, b) + Delete(Delete(s[1..], a), b);
      }
      assert head != [] ==> head[1..] == [];
    }
  }

  lemma {:induction false} DeleteAppend(s: string, t: string, bad: set<char>)
    ensures Delete(s + t, bad) == Delete(s, bad) + Delete(t, bad)
  {
    if s != [] {
      assert (s + t)[0] == s[0];
      assert (s + t)[1..] == s[1..] + t;
      DeleteAppend(s[1..], t, bad);
    } else {
      assert s + t == t;
    }
  }

  /** `lstrip(' ')`: drops the leading spaces and only those. */
  function StripLeft(s: string): (r: string)
    ensures |r| <= |s| && r == s[|s| - |r|..]
    ensures forall k :: 0 <= k < |s| - |r| ==> s[k] == ' '
    ensures r == [] || r[0] != ' '
  {
    if s != [] && s[0] == ' ' then StripLeft(s[1..]) else s
  }

  /** `rstrip(' ')`: drops the trailing spaces and only those. */
  function StripRight(s: string): (r: string)
    ensures |r| <= |s| && r == s[..|r|]
    ensures forall k :: |r| <= k < |s| ==> s[k] == ' '
    ensures r == [] || r[|r| - 1] != ' '
  {
    if s != [] && s[|s| - 1] == ' ' then StripRight(s[..|s| - 1]) else s
  }

  /** The number of spaces `s` starts with. */
  function LeadingSpaces(s: string): (n: nat)
    ensures n <= |s|
    ensures forall k :: 0 <= k < n ==> s[k] == ' '
    ensures n < |s| ==> s[n] != ' '
  {
    if s != [] && s[0] == ' ' then 1 + LeadingSpaces(s[1..]) else 0
  }

  /** `lstrip(' ')` cuts exactly the leading spaces. */
  lemma {:induction false} StripLeftDropsLeadingSpaces(s: string)
    ensures StripLeft(s) == s[LeadingSpaces(s)..]
  {
    if s != [] && s[0] == ' ' {
      StripLeftDropsLeadingSpaces(s[1..]);
      assert s[1..][LeadingSpaces(s[1..])..] == s[LeadingSpaces(s)..];
    }
  }

  /** Trimming the end of a suffix of `s` leaves a slice of `s`, and what is
      trimmed is spaces. */
  lemma SuffixStripRight(s: string, a: nat)
    requires a <= |s|
    ensures a + |StripRight(s[a..])| <= |s|
    ensures StripRight(s[a..]) == s[a..a + |StripRight(s[a..])|]
    ensures forall k :: a + |StripRight(s[a..])| <= k < |s| ==> s[k] == ' '
  {
    var t := s[a..];
    var r := StripRight(t);
    assert r == t[..|r|];
    forall k | a + |r| <= k < |s| ensures s[k] == ' ' {
      assert s[k] == t[k - a];
    }
  }

  /** `strip(' ')`: only the plain space is stripped, from both ends; the
      result is the slice of `s` after its leading spaces, and everything
      cut away after it is a space too. */
  function Strip(s: string): (r: string)
    ensures r == [] || (r[0] != ' ' && r[|r| - 1] != ' ')
    ensures LeadingSpaces(s) + |r| <= |s|
    ensures r == s[LeadingSpaces(s)..LeadingSpaces(s) + |r|]
    ensures forall k :: LeadingSpaces(s) + |r| <= k < |s| ==> s[k] == ' '
  {
    StripLeftDropsLeadingSpaces(s);
    SuffixStripRight(s, LeadingSpaces(s));
    StripRight(StripLeft(s))
  }

  lemma StripNothing(s: string)
    requires s == [] || (s[0] != ' ' && s[|s| - 1] != ' ')
    ensures Strip(s) == s
  {
    assert StripLeft(s) == s;
    assert StripRight(s) == s;
  }

  function LowerChar(c: char): char
  {
    if 'A' <= c <= 'Z' then (c as int - 'A' as int + 'a' as int) as char else c
  }

  /** `str.lower()`, on the ASCII letters. */
  function Lower(s: string): (r: string)
    ensures |r| == |s|
    ensures forall i :: 0 <= i < |s| ==> r[i] == LowerChar(s[i])
    ensures forall c :: c in r ==> !('A' <= c <= 'Z')
  {
    seq(|s|, i requires 0 <= i < |s| => LowerChar(s[i]))
  }

  predicate IsDigit(c: char)
  {
    '0' <= c <= '9'
  }

  function DigitChar(d: nat): (c: char)
    requires d < 10
    ensures IsDigit(c) && c as int - '0' as int == d
  {
    ('0' as int + d) as char
  }

  /** `str(n)` for a non-negative integer. */
  function NatToString(n: nat): (r: string)
    ensures |r| >= 1
    ensures forall i :: 0 <= i < |r| ==> IsDigit(r[i])
    ensures |r| > 1 ==> r[0] != '0'
  {
    if n < 10 then [DigitChar(n)] else NatToString(n / 10) + [DigitChar(n % 10)]
  }

  /** The number a string of decimal digits denotes. */
  function DecimalValue(s: string): nat
    requires forall i :: 0 <= i < |s| ==> IsDigit(s[i])
  {
    if s == [] then 0
    else
      assert IsDigit(s[|s| - 1]);
      DecimalValue(s[..|s| - 1]) * 10 + (s[|s| - 1] as int - '0' as int)
  }

  /** Reading back what `str(n)` wrote gives `n`. */
  lemma {:induction false} DecimalRoundTrip(n: nat)
    ensures DecimalValue(NatToString(n)) == n
  {
    var s := NatToString(n);
    if n >= 10 {
      DecimalRoundTrip(n / 10);
      assert s[..|s| - 1] == NatToString(n / 10);
    }
  }

  lemma NatToStringInjective(a: nat, b: nat)
    requires NatToString(a) == NatToString(b)
    ensures a == b
  {
    DecimalRoundTrip(a);
    DecimalRoundTrip(b);
  }

  /** `sep.join(xs)`. */
  function Join(sep: string, xs: seq<string>): (r: string)
    ensures xs == [] ==> r == ""
    ensures |xs| == 1 ==> r == xs[0]
  {
    if xs == [] then ""
    else if |xs| == 1 then xs[0]
    else xs[0] + sep + Join(sep, xs[1..])
  }

  /** Appending one more part appends the separator and that part. */
  lemma {:induction false} JoinSnoc(sep: string, xs: seq<string>, x: string)
    requires xs != []
    ensures Join(sep, xs + [x]) == Join(sep, xs) + sep + x
    decreases |xs|
  {
    var ys := xs + [x];
    if |xs| == 1 {
      assert ys[1..] == [x];
    } else {
      assert ys[1..] == xs[1..] + [x];
      JoinSnoc(sep, xs[1..], x);
    }
  }

  /** The joined text is every part and `|xs| - 1` separators. */
  lemma {:induction false} JoinLength(sep: string, xs: seq<string>)
    requires xs != []
    ensures |Join(sep, xs)| == TotalLength(xs) + (|xs| - 1) * |sep|
    decreases |xs|
  {
    if |xs| > 1 {
      JoinLength(sep, xs[1..]);
    }
  }

  function TotalLength(xs: seq<string>): nat
  {
    if xs == [] then 0 else |xs[0]| + TotalLength(xs[1..])
  }

  /** `xs[:-1]`: empty for an empty list, else everything but the last. */
  function AllButLast<T>(xs: seq<T>): (r: seq<T>)
    ensures |r| == if xs == [] then 0 else |xs| - 1
    ensures forall i :: 0 <= i < |r| ==> r[i] == xs[i]
  {
    if xs == [] then [] else xs[..|xs| - 1]
  }
}
