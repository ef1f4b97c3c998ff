/** The Python string built-ins the feed normaliser relies on: `str.isspace`, `strip`,
    `split()`, `upper`, `str(int)` and string comparison. */
module PyText {
  import opened Json

  // ---------------------------------------------------------------- whitespace

  /** `c.isspace()`: the code points Python's `strip()` and `split()` treat as whitespace. */
  predicate IsSpace(c: char) {
    var n := c as int;
    || 9 <= n <= 13
    || 28 <= n <= 32
    || n == 0x85 || n == 0xA0 || n == 0x1680
    || 0x2000 <= n <= 0x200A
    || n == 0x2028 || n == 0x2029 || n == 0x202F || n == 0x205F || n == 0x3000
  }

  predicate AllSpace(s: string) {
    forall i :: 0 <= i < |s| ==> IsSpace(s[i])
  }

  predicate NoSpace(s: string) {
    forall i :: 0 <= i < |s| ==> !IsSpace(s[i])
  }

  /** `s.lstrip()`: drops the leading whitespace. */
  function TrimStart(s: string): (r: string)
    ensures |r| <= |s| && r == s[|s| - |r|..]
    ensures AllSpace(s[..|s| - |r|])
    ensures r == [] || !IsSpace(r[0])
  {
    if s != [] && IsSpace(s[0]) then
      var r := TrimStart(s[1..]);
      assert s[..|s| - |r|] == [s[0]] + s[1..][..|s| - 1 - |r|];
      r
    else s
  }

  /** `s.rstrip()`: drops the trailing whitespace. */
  function TrimEnd(s: string): (r: string)
    ensures |r| <= |s| && r == s[..|r|]
    ensures AllSpace(s[|r|..])
    ensures r == [] || !IsSpace(r[|r| - 1])
  {
    if s != [] && IsSpace(s[|s| - 1]) then
      var r := TrimEnd(s[..|s| - 1]);
      assert s[|r|..] == s[..|s| - 1][|r|..] + [s[|s| - 1]];
      r
    else s
  }

  /** `s.strip()`: the slice of `s` left once the whitespace at both ends is cut off. The cut parts
      are all whitespace and the slice neither starts nor ends with whitespace, which fixes it. */
  function Strip(s: string): (r: string)
    ensures |r| <= |s|
    ensures exists i, j :: 0 <= i <= j <= |s| && r == s[i..j] && AllSpace(s[..i]) && AllSpace(s[j..])
    ensures r == [] || (!IsSpace(r[0]) && !IsSpace(r[|r| - 1]))
  {
    var t := TrimStart(s);
    var r := TrimEnd(t);
    var i := |s| - |t|;
    assert r == s[i..i + |r|];
    assert s[i + |r|..] == t[|r|..];
    r
  }

  /** Stripping leaves nothing exactly when the text is all whitespace. */
  lemma StripEmptyIff(s: string)
    ensures Strip(s) == [] <==> AllSpace(s)
  {
    var t := TrimStart(s);
    assert s == s[..|s| - |t|] + t;
    if Strip(s) == [] {
      assert t[0..] == t;
    }
    if t != [] {
      assert t[0] == s[|s| - |t|];
    }
  }

  // ---------------------------------------------------------------- split

  /** Length of the leading run of non-whitespace characters. */
  function LeadingRun(s: string): (n: nat)
    ensures n <= |s| && NoSpace(s[..n])
    ensures n < |s| ==> IsSpace(s[n])
  {
    if s == [] || IsSpace(s[0]) then 0
    else
      var n := LeadingRun(s[1..]);
      assert s[..n + 1] == [s[0]] + s[1..][..n];
      n + 1
  }

  /** `s.split()` with no separator: the maximal runs of non-whitespace, in order. */
  function Words(s: string): (ws: seq<string>)
    ensures forall i :: 0 <= i < |ws| ==> ws[i] != [] && NoSpace(ws[i])
    decreases |s|
  {
    var t := TrimStart(s);
    if t == [] then []
    else
      var n := LeadingRun(t);
      [t[..n]] + Words(t[n..])
  }

  /** Whitespace in front of a text does not change where its first word starts. */
  lemma {:induction false} TrimStartSkip(p: string, q: string)
    requires AllSpace(p)
    ensures TrimStart(p + q) == TrimStart(q)
    decreases |p|
  {
    if p != [] {
      assert (p + q)[0] == p[0] && (p + q)[1..] == p[1..] + q;
      TrimStartSkip(p[1..], q);
    } else {
      assert p + q == q;
    }
  }

  /** A word already cut short inside `x`, or ended by whitespace right after `x`, is not
      lengthened by what follows. */
  lemma {:induction false} LeadingRunAppend(x: string, y: string)
    requires LeadingRun(x) < |x| || y == [] || IsSpace(y[0])
    ensures LeadingRun(x + y) == LeadingRun(x)
    decreases |x|
  {
    if x == [] {
      assert x + y == y;
    } else {
      assert (x + y)[0] == x[0] && (x + y)[1..] == x[1..] + y;
      if !IsSpace(x[0]) {
        LeadingRunAppend(x[1..], y);
      }
    }
  }

  /** `split()` breaks the text at every whitespace character: the words of a text cut at one
      whitespace character are the words of the part before it followed by those of the part after. */
  lemma {:induction false} WordsSplitAtSpace(a: string, c: char, b: string)
    requires IsSpace(c)
    ensures Words(a + [c] + b) == Words(a) + Words(b)
    decreases |a|, 1
  {
    if TrimStart(a) == [] {
      WordsSplitBlankHead(a, c, b);
    } else {
      WordsSplitWordHead(a, c, b);
    }
  }

  /** The case of `WordsSplitAtSpace` where the part before the cut is all whitespace. */
  lemma {:induction false} WordsSplitBlankHead(a: string, c: char, b: string)
    requires IsSpace(c) && TrimStart(a) == []
    ensures Words(a + [c] + b) == Words(a) + Words(b)
  {
    BlankThenSpace(a, c);
    WordsAfterSpaces(a + [c], b);
    BlankNoWords(a);
  }

  lemma BlankNoWords(a: string)
    requires TrimStart(a) == []
    ensures Words(a) == []
  {
  }

  /** The first word of a text that is not blank, followed by the words of what follows it. */
  lemma WordsUnfold(s: string)
    requires TrimStart(s) != []
    ensures Words(s) == [TrimStart(s)[..LeadingRun(TrimStart(s))]] + Words(TrimStart(s)[LeadingRun(TrimStart(s))..])
  {
  }

  lemma BlankThenSpace(a: string, c: char)
    requires IsSpace(c) && TrimStart(a) == []
    ensures AllSpace(a + [c])
  {
    assert a[..|a|] == a;
  }

  /** The case of `WordsSplitAtSpace` where a word starts before the cut: that word ends at the
      cut at the latest, and the rest is split by induction. */
  lemma {:induction false} WordsSplitWordHead(a: string, c: char, b: string)
    requires IsSpace(c) && TrimStart(a) != []
    ensures Words(a + [c] + b) == Words(a) + Words(b)
    decreases |a|, 0
  {
    var ta := TrimStart(a);
    var n := LeadingRun(ta);
    WordHeadShape(a, c, b);
    WordsSplitAtSpace(ta[n..], c, b);
    WordsUnfold(a + [c] + b);
    WordsUnfold(a);
    AppendAssoc([ta[..n]], Words(ta[n..]), Words(b));
  }

  /** Cutting `a + [c] + b` at whitespace `c`: the text starts where `a`'s text starts, its first
      word is `a`'s first word, and after that word comes the rest of `a`, then `c` and `b`. */
  lemma WordHeadShape(a: string, c: char, b: string)
    requires IsSpace(c) && TrimStart(a) != []
    ensures TrimStart(a + [c] + b) == TrimStart(a) + [c] + b
    ensures LeadingRun(TrimStart(a + [c] + b)) == LeadingRun(TrimStart(a))
    ensures TrimStart(a + [c] + b)[..LeadingRun(TrimStart(a))] == TrimStart(a)[..LeadingRun(TrimStart(a))]
    ensures TrimStart(a + [c] + b)[LeadingRun(TrimStart(a))..] == TrimStart(a)[LeadingRun(TrimStart(a))..] + [c] + b
  {
    var ta := TrimStart(a);
    TrimStartOfCut(a, c, b);
    AppendAssoc(ta, [c], b);
    FirstWordOfAppend(ta, [c] + b);
    AppendAssoc(ta[LeadingRun(ta)..], [c], b);
  }

  lemma TrimStartOfCut(a: string, c: char, b: string)
    requires TrimStart(a) != []
    ensures TrimStart(a + [c] + b) == TrimStart(a) + [c] + b
  {
    var ta := TrimStart(a);
    var pre := a[..|a| - |ta|];
    var rest := ta + [c] + b;
    assert a + [c] + b == pre + rest by {
      assert a == pre + ta;
      AppendAssoc(pre, ta, [c]);
      AppendAssoc(pre, ta + [c], b);
    }
    TrimStartSkip(pre, rest);
    assert rest[0] == ta[0];
  }

  /** The first word of `x + y` is that of `x` when it ends inside `x` or `y` starts with whitespace. */
  lemma FirstWordOfAppend(x: string, y: string)
    requires LeadingRun(x) < |x| || y == [] || IsSpace(y[0])
    ensures LeadingRun(x + y) == LeadingRun(x)
    ensures (x + y)[..LeadingRun(x)] == x[..LeadingRun(x)]
    ensures (x + y)[LeadingRun(x)..] == x[LeadingRun(x)..] + y
  {
    LeadingRunAppend(x, y);
    DropAppend(x, y, LeadingRun(x));
  }

  /** Whitespace in front of a text adds no word. */
  lemma {:induction false} WordsAfterSpaces(p: string, q: string)
    requires AllSpace(p)
    ensures Words(p + q) == Words(q)
  {
    TrimStartSkip(p, q);
    var t := TrimStart(q);
    if t != [] {
      var n := LeadingRun(t);
      assert Words(p + q) == [t[..n]] + Words(t[n..]);
    }
  }

  lemma AppendAssoc<T>(x: seq<T>, y: seq<T>, z: seq<T>)
    ensures x + (y + z) == (x + y) + z
  {
  }

  lemma DropAppend(x: string, y: string, n: nat)
    requires n <= |x|
    ensures (x + y)[n..] == x[n..] + y
  {
  }

  /** A text without whitespace is a single word. */
  lemma WordsOfWord(w: string)
    requires w != [] && NoSpace(w)
    ensures Words(w) == [w]
  {
    assert TrimStart(w) == w;
    var n := LeadingRun(w);
    assert n == |w|;
    assert w[..n] == w && w[n..] == [];
    assert Words(w[n..]) == [];
    assert Words(w) == [w[..n]] + Words(w[n..]);
  }

  /** `"".join(ws)` */
  function Concat(ws: seq<string>): string {
    if ws == [] then [] else ws[0] + Concat(ws[1..])
  }

  /** `s` with every whitespace character removed: what the words of `s` are made of. */
  function RemoveSpaces(s: string): string {
    if s == [] then [] else (if IsSpace(s[0]) then [] else [s[0]]) + RemoveSpaces(s[1..])
  }

  lemma {:induction false} RemoveSpacesAppend(a: string, b: string)
    ensures RemoveSpaces(a + b) == RemoveSpaces(a) + RemoveSpaces(b)
  {
    if a != [] {
      assert (a + b)[0] == a[0] && (a + b)[1..] == a[1..] + b;
      RemoveSpacesAppend(a[1..], b);
    } else {
      assert a + b == b;
    }
  }

  lemma {:induction false} RemoveSpacesAll(s: string)
    requires AllSpace(s)
    ensures RemoveSpaces(s) == []
  {
    if s != [] { RemoveSpacesAll(s[1..]); }
  }

  lemma {:induction false} RemoveSpacesNone(s: string)
    requires NoSpace(s)
    ensures RemoveSpaces(s) == s
  {
    if s != [] { RemoveSpacesNone(s[1..]); }
  }

  /** Leading whitespace contributes nothing to the words. */
  lemma RemoveSpacesTrimStart(s: string)
    ensures RemoveSpaces(s) == RemoveSpaces(TrimStart(s))
  {
    var t := TrimStart(s);
    assert s == s[..|s| - |t|] + t;
    RemoveSpacesAppend(s[..|s| - |t|], t);
    RemoveSpacesAll(s[..|s| - |t|]);
  }

  /** A text starting with a word is that word followed by what remains of the rest. */
  lemma RemoveSpacesFirstWord(t: string, n: nat)
    requires n <= |t| && NoSpace(t[..n])
    ensures RemoveSpaces(t) == t[..n] + RemoveSpaces(t[n..])
  {
    assert t == t[..n] + t[n..];
    RemoveSpacesAppend(t[..n], t[n..]);
    RemoveSpacesNone(t[..n]);
  }

  /** The words of `split()`, joined back together, are exactly the text without its
      whitespace: nothing is lost, duplicated or reordered. */
  lemma {:induction false} WordsCoverText(s: string)
    ensures Concat(Words(s)) == RemoveSpaces(s)
    decreases |s|
  {
    var t := TrimStart(s);
    RemoveSpacesTrimStart(s);
    if t != [] {
      var n := LeadingRun(t);
      RemoveSpacesFirstWord(t, n);
      WordsCoverText(t[n..]);
      assert Words(s) == [t[..n]] + Words(t[n..]);
    }
  }

  /** `split()` finds no word exactly when the text is all whitespace. */
  lemma WordsEmptyIff(s: string)
    ensures Words(s) == [] <==> AllSpace(s)
  {
    var t := TrimStart(s);
    assert s == s[..|s| - |t|] + t;
    if t != [] {
      assert t[0] == s[|s| - |t|];
    }
  }

  // ---------------------------------------------------------------- upper

  /** `c.upper()` on ASCII letters; other characters are left as they are. */
  function UpperChar(c: char): char {
    if 'a' <= c <= 'z' then (c as int - 32) as char else c
  }

  /** `s.upper()` */
  function Upper(s: string): (r: string)
    ensures |r| == |s|
  {
    seq(|s|, i requires 0 <= i < |s| => UpperChar(s[i]))
  }

  /** Upper-casing is idempotent: an upper-cased text is its own upper case. */
  lemma UpperIdempotent(s: string)
    ensures Upper(Upper(s)) == Upper(s)
  {
  }

  /** A text made only of characters of an upper-cased text is itself upper case. */
  lemma UpperOfUpperChars(r: string, s: string)
    requires forall c :: c in r ==> c in Upper(s)
    ensures Upper(r) == r
  {
    forall i | 0 <= i < |r| ensures UpperChar(r[i]) == r[i] {
      assert r[i] in Upper(s);
      var j :| 0 <= j < |s| && Upper(s)[j] == r[i];
    }
  }

  /** Upper-casing never turns a character into whitespace or whitespace into something else. */
  lemma UpperKeepsSpaces(s: string)
    ensures forall i :: 0 <= i < |s| ==> (IsSpace(Upper(s)[i]) <==> IsSpace(s[i]))
  {
  }

  // ---------------------------------------------------------------- str(int)

  predicate IsDigit(c: char) {
    '0' <= c <= '9'
  }

  predicate AllDigits(s: string) {
    forall i :: 0 <= i < |s| ==> IsDigit(s[i])
  }

  function DigitChar(d: nat): (c: char)
    requires d < 10
    ensures IsDigit(c)
  {
    ('0' as int + d) as char
  }

  function DigitValue(c: char): (d: nat)
    requires IsDigit(c)
    ensures d < 10
  {
    c as int - '0' as int
  }

  /** Decimal digits of `n`, most significant first, no leading zeros. */
  function NatToString(n: nat): (r: string)
    ensures r != [] && AllDigits(r)
  {
    if n < 10 then [DigitChar(n)] else NatToString(n / 10) + [DigitChar(n % 10)]
  }

  /** `str(i)` for a Python int. */
  function IntToString(i: int): (r: string)
    ensures r != []
    ensures forall k :: 0 <= k < |r| ==> IsDigit(r[k]) || r[k] == '-'
  {
    if i < 0 then "-" + NatToString(-i) else NatToString(i)
  }

  /** The number a run of decimal digits denotes. */
  function DigitsValue(s: string): nat
    requires AllDigits(s)
  {
    if s == [] then 0 else 10 * DigitsValue(s[..|s| - 1]) + DigitValue(s[|s| - 1])
  }

  /** Reads back an optional minus sign followed by at least one digit. */
  function ParseInt(s: string): Option<int> {
    if |s| >= 2 && s[0] == '-' && AllDigits(s[1..]) then Some(0 - DigitsValue(s[1..]))
    else if s != [] && AllDigits(s) then Some(DigitsValue(s))
    else None
  }

  lemma {:induction false} NatToStringRoundTrip(n: nat)
    ensures DigitsValue(NatToString(n)) == n
  {
    if n >= 10 {
      NatToStringRoundTrip(n / 10);
      var s := NatToString(n);
      assert s[..|s| - 1] == NatToString(n / 10);
    }
  }

  /** `str(i)` can be read back: the decimal text determines the number. */
  lemma IntToStringRoundTrip(i: int)
    ensures ParseInt(IntToString(i)) == Some(i)
  {
    if i < 0 {
      NatToStringRoundTrip(-i);
      assert IntToString(i)[1..] == NatToString(-i);
    } else {
      NatToStringRoundTrip(i);
    }
  }

  /** Distinct numbers have distinct decimal texts. */
  lemma IntToStringInjective(i: int, j: int)
    requires IntToString(i) == IntToString(j)
    ensures i == j
  {
    IntToStringRoundTrip(i);
    IntToStringRoundTrip(j);
  }

  // ---------------------------------------------------------------- searching

  /** `s.find(c)` when `c` occurs; `|s|` when it does not. */
  function IndexOf(s: string, c: char): (k: nat)
    ensures k <= |s|
    ensures k < |s| ==> s[k] == c
    ensures forall j :: 0 <= j < k ==> s[j] != c
  {
    if s == [] then 0 else if s[0] == c then 0 else 1 + IndexOf(s[1..], c)
  }

  /** A separator that does not occur in `a` is found right after `a`. */
  lemma IndexOfAfter(a: string, c: char, b: string)
    requires c !in a
    ensures IndexOf(a + [c] + b, c) == |a|
  {
    var s := a + [c] + b;
    assert s[|a|] == c;
    assert forall j :: 0 <= j < |a| ==> s[j] == a[j];
  }

  /** Two texts joined at a separator that occurs in neither head split back the same way. */
  lemma SplitAtSeparator(a: string, b: string, c: char, x: string, y: string)
    requires c !in a && c !in x
    requires a + [c] + b == x + [c] + y
    ensures a == x && b == y
  {
    IndexOfAfter(a, c, b);
    IndexOfAfter(x, c, y);
    var s := a + [c] + b;
    assert a == s[..|a|] && x == s[..|x|];
    assert b == s[|a| + 1..] && y == s[|x| + 1..];
  }

  // ---------------------------------------------------------------- ordering

  /** `a <= b` for Python strings: lexicographic by code point, a prefix first. */
  predicate StrLe(a: string, b: string)
    decreases |a|
  {
    a == [] || (b != [] && (a[0] < b[0] || (a[0] == b[0] && StrLe(a[1..], b[1..]))))
  }

  lemma {:induction false} StrLeReflexive(a: string)
    ensures StrLe(a, a)
    decreases |a|
  {
    if a != [] { StrLeReflexive(a[1..]); }
  }

  lemma {:induction false} StrLeTotal(a: string, b: string)
    ensures StrLe(a, b) || StrLe(b, a)
    decreases |a|
  {
    if a != [] && b != [] && a[0] == b[0] { StrLeTotal(a[1..], b[1..]); }
  }

  lemma {:induction false} StrLeTransitive(a: string, b: string, c: string)
    requires StrLe(a, b) && StrLe(b, c)
    ensures StrLe(a, c)
    decreases |a|
  {
    if a != [] && a[0] == b[0] && b[0] == c[0] { StrLeTransitive(a[1..], b[1..], c[1..]); }
  }

  lemma {:induction false} StrLeAntisymmetric(a: string, b: string)
    requires StrLe(a, b) && StrLe(b, a)
    ensures a == b
    decreases |a|
  {
    if a != [] {
      StrLeAntisymmetric(a[1..], b[1..]);
      assert a == [a[0]] + a[1..] && b == [b[0]] + b[1..];
    }
  }
}
