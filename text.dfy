/**
  The few operations on Python strings that the grading backend relies on:
  `find`/`in`, `split(sep)`, `split()`, `strip()`, `startswith`, ASCII
  `upper`/`lower`, and `str(n)` for a natural number. Each is defined here
  once, with the facts the rest of the model needs.
 */
module Text {
  import opened Base

  /** `sub` occurs in `s` starting at position `j`. */
  predicate OccursAt(s: string, sub: string, j: int) {
    0 <= j && j + |sub| <= |s| && forall m :: 0 <= m < |sub| ==> s[j + m] == sub[m]
  }

  /** Python's `s.find(sub)`: the first position where `sub` occurs, or None. */
  function Find(s: string, sub: string): (r: Option<nat>)
    ensures r.Some? ==> OccursAt(s, sub, r.value)
    ensures r.Some? ==> forall j :: 0 <= j < r.value ==> !OccursAt(s, sub, j)
    ensures r.None? ==> forall j :: 0 <= j ==> !OccursAt(s, sub, j)
    decreases |s|
  {
    if |s| < |sub| then None
    else if OccursAt(s, sub, 0) then Some(0)
    else
      var rest := Find(s[1..], sub);
      ShiftOccurrence(s, sub);
      match rest
      case None => None
      case Some(i) => Some(i + 1)
  }

  /** Occurrences in `s[1..]` are the occurrences in `s` moved one place left. */
  lemma ShiftOccurrence(s: string, sub: string)
    requires s != []
    ensures forall j :: 1 <= j ==> (OccursAt(s, sub, j) <==> OccursAt(s[1..], sub, j - 1))
  {
  }

  /** An occurrence is a slice equal to `sub`. */
  lemma OccursAtSlice(s: string, sub: string, j: nat)
    requires OccursAt(s, sub, j)
    ensures s[j..j + |sub|] == sub
  {
  }

  /** Text in which the first character of `sub` never appears does not contain `sub`. */
  lemma MissingFirstCharNotContained(s: string, sub: string)
    requires sub != "" && forall k :: 0 <= k < |s| ==> s[k] != sub[0]
    ensures !Contains(s, sub)
  {
    ContainsIff(s, sub);
  }

  /** An occurrence preceded by no copy of the first character of `sub` is the first one. */
  lemma FindFirstAt(s: string, sub: string, p: nat)
    requires sub != "" && OccursAt(s, sub, p)
    requires forall k :: 0 <= k < p ==> s[k] != sub[0]
    ensures Find(s, sub) == Some(p)
  {
    var f := Find(s, sub);
    assert f.Some?;
    assert s[f.value + 0] == sub[0];
  }

  /**
    No occurrence of `sep` starts inside `a`, not even one that runs on into
    a copy of `sep` written right after it.
   */
  predicate NoneStartsIn(a: string, sep: string) {
    sep != "" && !Contains(a + sep[..|sep| - 1], sep)
  }

  /** When no occurrence starts inside `a`, the `sep` written after `a` is the first. */
  lemma FirstOccurrence(a: string, sep: string, rest: string)
    requires NoneStartsIn(a, sep)
    ensures Find(a + sep + rest, sep) == Some(|a|)
  {
    var s := a + sep + rest;
    var front := a + sep[..|sep| - 1];
    assert OccursAt(s, sep, |a|);
    ContainsIff(front, sep);
    forall j | 0 <= j < |a|
      ensures !OccursAt(s, sep, j)
    {
      assert forall i :: j <= i < j + |sep| ==> s[i] == front[i];
      assert OccursAt(s, sep, j) <==> OccursAt(front, sep, j);
    }
  }

  /** Python's `sub in s`. */
  predicate Contains(s: string, sub: string) {
    Find(s, sub).Some?
  }

  /** `in` holds exactly when some position holds an occurrence. */
  lemma ContainsIff(s: string, sub: string)
    ensures Contains(s, sub) <==> exists j :: OccursAt(s, sub, j)
  {
    if Contains(s, sub) {
      assert OccursAt(s, sub, Find(s, sub).value);
    }
  }

  /** An occurrence inside a slice is an occurrence in the whole string. */
  lemma SliceOccurrence(s: string, i: nat, k: nat, sub: string, j: int)
    requires i <= k <= |s|
    requires OccursAt(s[i..k], sub, j)
    ensures OccursAt(s, sub, i + j)
  {
  }

  /** A slice of a string that does not contain `sub` does not contain it either. */
  lemma NotContainsSlice(s: string, i: nat, k: nat, sub: string)
    requires i <= k <= |s|
    requires !Contains(s, sub)
    ensures !Contains(s[i..k], sub)
  {
    if Contains(s[i..k], sub) {
      SliceOccurrence(s, i, k, sub, Find(s[i..k], sub).value);
    }
  }

  /** A one-character pattern occurs exactly where that character does. */
  lemma ContainsChar(s: string, c: char)
    ensures Contains(s, [c]) <==> exists k :: 0 <= k < |s| && s[k] == c
  {
    ContainsIff(s, [c]);
    if exists k :: 0 <= k < |s| && s[k] == c {
      var k :| 0 <= k < |s| && s[k] == c;
      assert OccursAt(s, [c], k);
    }
    if Contains(s, [c]) {
      var j :| OccursAt(s, [c], j);
      assert s[j + 0] == c;
    }
  }

  /** Python's `sep.join(parts)`. */
  function Join(parts: seq<string>, sep: string): string
    decreases |parts|
  {
    if |parts| == 0 then ""
    else if |parts| == 1 then parts[0]
    else parts[0] + sep + Join(parts[1..], sep)
  }

  /**
    Python's `s.split(sep)` for a non-empty separator: the pieces between
    the non-overlapping occurrences of `sep`, found from the left. Splitting
    and joining back with the same separator gives the original string,
    no piece holds the separator, and there is more than one piece exactly
    when the separator occurs.
   */
  function Split(s: string, sep: string): (parts: seq<string>)
    requires sep != ""
    ensures |parts| >= 1
    ensures |parts| == 1 <==> !Contains(s, sep)
    ensures forall k :: 0 <= k < |parts| ==> !Contains(parts[k], sep)
    ensures Join(parts, sep) == s
    decreases |s|
  {
    match Find(s, sep)
    case None => [s]
    case Some(i) =>
      var rest := Split(s[i + |sep|..], sep);
      SplitAtFirst(s, sep, i);
      JoinCons(s[..i], rest, sep);
      [s[..i]] + rest
  }

  /** Cutting at the first occurrence: the head is free of `sep`, and head, `sep`, tail rebuild `s`. */
  lemma SplitAtFirst(s: string, sep: string, i: nat)
    requires sep != "" && Find(s, sep) == Some(i)
    ensures !Contains(s[..i], sep)
    ensures s == s[..i] + sep + s[i + |sep|..]
  {
    if Contains(s[..i], sep) {
      SliceOccurrence(s, 0, i, sep, Find(s[..i], sep).value);
    }
    OccursAtSlice(s, sep, i);
    assert s == s[..i] + s[i..i + |sep|] + s[i + |sep|..];
  }

  lemma JoinCons(head: string, rest: seq<string>, sep: string)
    requires |rest| >= 1
    ensures Join([head] + rest, sep) == head + sep + Join(rest, sep)
  {
    assert ([head] + rest)[1..] == rest;
  }

  /** Joining two non-empty lists is joining each and putting one separator between. */
  lemma {:induction false} JoinAppend(a: seq<string>, b: seq<string>, sep: string)
    requires a != [] && b != []
    ensures Join(a + b, sep) == Join(a, sep) + sep + Join(b, sep)
    decreases |a|
  {
    assert a + b == [a[0]] + (a[1..] + b);
    JoinCons(a[0], a[1..] + b, sep);
    if |a| > 1 {
      JoinAppend(a[1..], b, sep);
      JoinCons(a[0], a[1..], sep);
      assert [a[0]] + a[1..] == a;
    }
  }

  /** The first piece of `s.split(sep)` is the text before the first `sep`. */
  lemma SplitFirst(s: string, sep: string)
    requires sep != ""
    ensures Find(s, sep).Some? ==> Split(s, sep)[0] == s[..Find(s, sep).value]
    ensures Find(s, sep).None? ==> Split(s, sep)[0] == s
  {
  }

  /** The second piece of `s.split(sep)`: the text after the first `sep` up to the next one. */
  lemma SplitSecond(s: string, sep: string)
    requires sep != "" && Contains(s, sep)
    ensures var i := Find(s, sep).value;
            Split(s, sep)[1] == Split(s[i + |sep|..], sep)[0]
  {
  }

  /** The characters for which Python's `str.isspace()` holds (all of them in the BMP). */
  const Whitespace: set<char> := {
    ' ', '\t', '\n', '\r', '\U{000B}', '\U{000C}', '\U{001C}', '\U{001D}', '\U{001E}', '\U{001F}',
    '\U{0085}', '\U{00A0}', '\U{1680}', '\U{2000}', '\U{2001}', '\U{2002}', '\U{2003}', '\U{2004}', '\U{2005}', '\U{2006}',
    '\U{2007}', '\U{2008}', '\U{2009}', '\U{200A}', '\U{2028}', '\U{2029}', '\U{202F}', '\U{205F}', '\U{3000}'
  }

  predicate IsSpace(c: char) {
    c in Whitespace
  }

  /** Python's `s.lstrip(chars)`: drops the leading characters that are in `drop`. */
  function TrimStart(s: string, drop: set<char>): (r: string)
    ensures |r| <= |s| && r == s[|s| - |r|..]
    ensures r == "" || r[0] !in drop
    ensures forall k :: 0 <= k < |s| - |r| ==> s[k] in drop
    decreases |s|
  {
    if s != "" && s[0] in drop then TrimStart(s[1..], drop) else s
  }

  /** Python's `s.rstrip(chars)`: drops the trailing characters that are in `drop`. */
  function TrimEnd(s: string, drop: set<char>): (r: string)
    ensures |r| <= |s| && r == s[..|r|]
    ensures r == "" || r[|r| - 1] !in drop
    ensures forall k :: |r| <= k < |s| ==> s[k] in drop
    decreases |s|
  {
    if s != "" && s[|s| - 1] in drop then TrimEnd(s[..|s| - 1], drop) else s
  }

  /** Python's `s.strip(chars)`. */
  function Trim(s: string, drop: set<char>): string {
    TrimEnd(TrimStart(s, drop), drop)
  }

  /** Python's `s.strip()` with no argument. */
  function Strip(s: string): string {
    Trim(s, Whitespace)
  }

  /** What `strip` keeps is one contiguous slice of the input. */
  lemma TrimIsSlice(s: string, drop: set<char>)
    ensures var i, r := |s| - |TrimStart(s, drop)|, Trim(s, drop);
            i + |r| <= |s| && r == s[i..i + |r|]
  {
    var a := TrimStart(s, drop);
    var r := TrimEnd(a, drop);
    var i := |s| - |a|;
    calc {
      r;
      a[..|r|];
      s[i..][..|r|];
      s[i..i + |r|];
    }
  }

  /** What `strip` keeps neither starts nor ends with a dropped character. */
  lemma TrimEnds(s: string, drop: set<char>)
    ensures var r := Trim(s, drop);
            r == "" || (r[0] !in drop && r[|r| - 1] !in drop)
  {
    var a := TrimStart(s, drop);
    var r := TrimEnd(a, drop);
    if r != "" {
      assert r[0] == a[0];
    }
  }

  /** Stripping twice is stripping once. */
  lemma TrimIdempotent(s: string, drop: set<char>)
    ensures Trim(Trim(s, drop), drop) == Trim(s, drop)
  {
    var r := Trim(s, drop);
    TrimEnds(s, drop);
    assert TrimStart(r, drop) == r;
  }

  /** Stripping never creates an occurrence of a string that was not there. */
  lemma TrimKeepsAbsence(s: string, drop: set<char>, sub: string)
    requires !Contains(s, sub)
    ensures !Contains(Trim(s, drop), sub)
  {
    var a := TrimStart(s, drop);
    NotContainsSlice(s, |s| - |a|, |s|, sub);
    assert a == s[|s| - |a|..|s|];
    NotContainsSlice(a, 0, |TrimEnd(a, drop)|, sub);
    assert TrimEnd(a, drop) == a[0..|TrimEnd(a, drop)|];
  }

  /** Leading dropped characters make no difference to `lstrip`. */
  lemma {:induction false} TrimStartPadded(pad: string, s: string, drop: set<char>)
    requires forall k :: 0 <= k < |pad| ==> pad[k] in drop
    ensures TrimStart(pad + s, drop) == TrimStart(s, drop)
    decreases |pad|
  {
    if pad != "" {
      assert (pad + s)[1..] == pad[1..] + s;
      TrimStartPadded(pad[1..], s, drop);
    } else {
      assert pad + s == s;
    }
  }

  /** Trailing dropped characters make no difference to `rstrip`. */
  lemma {:induction false} TrimEndPadded(s: string, pad: string, drop: set<char>)
    requires forall k :: 0 <= k < |pad| ==> pad[k] in drop
    ensures TrimEnd(s + pad, drop) == TrimEnd(s, drop)
    decreases |pad|
  {
    if pad != "" {
      var short := pad[..|pad| - 1];
      assert (s + pad)[..|s + pad| - 1] == s + short;
      TrimEndPadded(s, short, drop);
    } else {
      assert s + pad == s;
    }
  }

  /** `lstrip` of text followed by dropped characters: those stay, unless nothing else does. */
  lemma {:induction false} TrimStartAppend(s: string, pad: string, drop: set<char>)
    requires forall k :: 0 <= k < |pad| ==> pad[k] in drop
    ensures TrimStart(s + pad, drop) == if TrimStart(s, drop) == "" then "" else TrimStart(s, drop) + pad
    decreases |s|
  {
    if s == "" {
      assert s + pad == pad + "";
      TrimStartPadded(pad, "", drop);
    } else if s[0] in drop {
      assert (s + pad)[1..] == s[1..] + pad;
      TrimStartAppend(s[1..], pad, drop);
    }
  }

  /** `strip()` ignores white space added on either side. */
  lemma StripPadded(front: string, s: string, back: string)
    requires forall k :: 0 <= k < |front| ==> front[k] in Whitespace
    requires forall k :: 0 <= k < |back| ==> back[k] in Whitespace
    ensures Strip(front + s + back) == Strip(s)
  {
    assert front + s + back == front + (s + back);
    TrimStartPadded(front, s + back, Whitespace);
    TrimStartAppend(s, back, Whitespace);
    if TrimStart(s, Whitespace) != "" {
      TrimEndPadded(TrimStart(s, Whitespace), back, Whitespace);
    }
  }

  /** Lower-casing turns no character into white space and none out of it. */
  lemma LowerKeepsSpace(c: char)
    ensures LowerChar(c) in Whitespace <==> c in Whitespace
  {
  }

  /** `lstrip()` and `lower()` commute. */
  lemma {:induction false} TrimStartLower(s: string)
    ensures TrimStart(Lower(s), Whitespace) == Lower(TrimStart(s, Whitespace))
    decreases |s|
  {
    if s != "" {
      LowerKeepsSpace(s[0]);
      if s[0] in Whitespace {
        assert Lower(s)[1..] == Lower(s[1..]);
        TrimStartLower(s[1..]);
      }
    }
  }

  /** `rstrip()` and `lower()` commute. */
  lemma {:induction false} TrimEndLower(s: string)
    ensures TrimEnd(Lower(s), Whitespace) == Lower(TrimEnd(s, Whitespace))
    decreases |s|
  {
    if s != "" {
      LowerKeepsSpace(s[|s| - 1]);
      if s[|s| - 1] in Whitespace {
        assert Lower(s)[..|s| - 1] == Lower(s[..|s| - 1]);
        TrimEndLower(s[..|s| - 1]);
      }
    }
  }

  /** `strip()` and `lower()` commute. */
  lemma StripLower(s: string)
    ensures Strip(Lower(s)) == Lower(Strip(s))
  {
    TrimStartLower(s);
    TrimEndLower(TrimStart(s, Whitespace));
  }

  /** Upper-casing after lower-casing is upper-casing. */
  lemma UpperLower(s: string)
    ensures Upper(Lower(s)) == Upper(s)
  {
  }

  /** Length of the run of non-space characters at the start of `s`. */
  function WordLength(s: string): (n: nat)
    requires s != "" && !IsSpace(s[0])
    ensures 1 <= n <= |s|
    ensures forall k :: 0 <= k < n ==> !IsSpace(s[k])
    ensures n < |s| ==> IsSpace(s[n])
    decreases |s|
  {
    if |s| == 1 || IsSpace(s[1]) then 1 else 1 + WordLength(s[1..])
  }

  /** Python's `s.split()`: the maximal runs of non-space characters, in order. */
  function Words(s: string): (ws: seq<string>)
    ensures forall k :: 0 <= k < |ws| ==> ws[k] != ""
    ensures forall k, m :: 0 <= k < |ws| && 0 <= m < |ws[k]| ==> !IsSpace(ws[k][m])
    decreases |s|
  {
    if s == "" then []
    else if IsSpace(s[0]) then Words(s[1..])
    else
      var n := WordLength(s);
      [s[..n]] + Words(s[n..])
  }

  /** The characters of `s` that are not whitespace, in order. */
  function NonSpace(s: string): string
    decreases |s|
  {
    if s == "" then ""
    else if IsSpace(s[0]) then NonSpace(s[1..])
    else [s[0]] + NonSpace(s[1..])
  }

  /** Concatenation of a list of strings. */
  function Concat(parts: seq<string>): string
    decreases |parts|
  {
    if parts == [] then "" else parts[0] + Concat(parts[1..])
  }

  lemma NonSpaceAppend(a: string, b: string)
    ensures NonSpace(a + b) == NonSpace(a) + NonSpace(b)
    decreases |a|
  {
    if a == "" {
      assert a + b == b;
    } else {
      assert (a + b)[0] == a[0];
      assert (a + b)[1..] == a[1..] + b;
      NonSpaceAppend(a[1..], b);
      if IsSpace(a[0]) {
        assert NonSpace(a + b) == NonSpace(a[1..] + b);
      } else {
        assert NonSpace(a + b) == [a[0]] + NonSpace(a[1..] + b);
      }
    }
  }

  lemma NonSpaceOfWord(w: string)
    requires forall k :: 0 <= k < |w| ==> !IsSpace(w[k])
    ensures NonSpace(w) == w
    decreases |w|
  {
    if w != "" {
      NonSpaceOfWord(w[1..]);
    }
  }

  /** `split()` loses only the whitespace: its words, put together, are the non-space characters. */
  lemma {:induction false} WordsKeepText(s: string)
    ensures Concat(Words(s)) == NonSpace(s)
    decreases |s|
  {
    if s == "" {
    } else if IsSpace(s[0]) {
      WordsKeepText(s[1..]);
    } else {
      var n := WordLength(s);
      WordsKeepText(s[n..]);
      assert s == s[..n] + s[n..];
      NonSpaceAppend(s[..n], s[n..]);
      NonSpaceOfWord(s[..n]);
      assert Words(s)[1..] == Words(s[n..]);
    }
  }

  /** Python's `s.startswith(prefix)`. */
  predicate StartsWith(s: string, prefix: string) {
    |prefix| <= |s| && s[..|prefix|] == prefix
  }

  /** Python's `s.endswith(suffix)`. */
  predicate EndsWith(s: string, suffix: string) {
    |suffix| <= |s| && s[|s| - |suffix|..] == suffix
  }

  function UpperChar(c: char): char {
    if 'a' <= c <= 'z' then (c as int - 'a' as int + 'A' as int) as char else c
  }

  function LowerChar(c: char): char {
    if 'A' <= c <= 'Z' then (c as int - 'A' as int + 'a' as int) as char else c
  }

  /** Python's `s.upper()`, for ASCII letters. */
  function Upper(s: string): (r: string)
    ensures |r| == |s|
    ensures forall k :: 0 <= k < |s| ==> r[k] == UpperChar(s[k])
  {
    seq(|s|, k requires 0 <= k < |s| => UpperChar(s[k]))
  }

  /** Python's `s.lower()`, for ASCII letters. */
  function Lower(s: string): (r: string)
    ensures |r| == |s|
    ensures forall k :: 0 <= k < |s| ==> r[k] == LowerChar(s[k])
  {
    seq(|s|, k requires 0 <= k < |s| => LowerChar(s[k]))
  }

  /** Upper-casing commutes with slicing: each character maps on its own. */
  lemma UpperSlice(s: string, i: nat, k: nat)
    requires i <= k <= |s|
    ensures Upper(s[i..k]) == Upper(s)[i..k]
  {
  }

  function DigitChar(d: nat): char
    requires d < 10
  {
    ('0' as int + d) as char
  }

  /** Python's `str(n)` for a natural number: its decimal digits, no leading zero. */
  function Decimal(n: nat): (r: string)
    ensures r != ""
    ensures forall k :: 0 <= k < |r| ==> '0' <= r[k] <= '9'
    decreases n
  {
    if n < 10 then [DigitChar(n)] else Decimal(n / 10) + [DigitChar(n % 10)]
  }

  /** Reads a string of decimal digits back as a number. */
  function ParseDecimal(s: string): nat
    requires forall k :: 0 <= k < |s| ==> '0' <= s[k] <= '9'
    decreases |s|
  {
    if s == "" then 0
    else ParseDecimal(s[..|s| - 1]) * 10 + (s[|s| - 1] as int - '0' as int)
  }

  /** Reading `str(n)` gives back `n`, so distinct numbers have distinct texts. */
  lemma {:induction false} DecimalRoundTrip(n: nat)
    ensures ParseDecimal(Decimal(n)) == n
    decreases n
  {
    if n >= 10 {
      DecimalRoundTrip(n / 10);
      var d := Decimal(n);
      assert d[..|d| - 1] == Decimal(n / 10);
    }
  }

  lemma DecimalInjective(m: nat, n: nat)
    requires Decimal(m) == Decimal(n)
    ensures m == n
  {
    DecimalRoundTrip(m);
    DecimalRoundTrip(n);
  }
}
