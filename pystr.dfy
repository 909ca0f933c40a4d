/**
 * The Python `str` operations the modelled code relies on, with Python's semantics:
 * `sub in s`, `s.find`, `s.split(sep)`, `sep.join`, `s.replace`, `s.strip`, `s.startswith`,
 * `s.endswith`, `s.isdigit`, `int(s)`, `str(n)` and the `04d` format.
 */
module PyStrings {
  import opened Wrappers

  /** `sub` occurs in `s` starting at position `i`. */
  ghost predicate OccursAt(s: string, sub: string, i: int)
  {
    0 <= i && i + |sub| <= |s| && s[i..i + |sub|] == sub
  }

  lemma OccursShift(s: string, sub: string)
    requires |s| > 0
    ensures forall j :: j >= 1 ==> (OccursAt(s, sub, j) <==> OccursAt(s[1..], sub, j - 1))
  {
    forall j | j >= 1
      ensures OccursAt(s, sub, j) <==> OccursAt(s[1..], sub, j - 1)
    {
      if j + |sub| <= |s| {
        assert s[1..][j - 1..j - 1 + |sub|] == s[j..j + |sub|];
      }
    }
  }

  /** Python's `s.find(sub)`: the first position at which `sub` starts, `None` for -1. */
  function Find(s: string, sub: string): (r: Option<nat>)
    ensures r.Some? ==> OccursAt(s, sub, r.value)
    ensures r.Some? ==> forall j :: 0 <= j < r.value ==> !OccursAt(s, sub, j)
    ensures r.None? ==> forall j :: !OccursAt(s, sub, j)
    decreases |s|
  {
    if |s| < |sub| then None
    else if s[..|sub|] == sub then Some(0)
    else
      OccursShift(s, sub);
      match Find(s[1..], sub)
      case None => None
      case Some(i) => assert s[1..][i..i + |sub|] == s[i + 1..i + 1 + |sub|]; Some(i + 1)
  }

  /** Python's `sub in s`. */
  predicate Contains(s: string, sub: string)
  {
    Find(s, sub).Some?
  }

  lemma ContainsIff(s: string, sub: string)
    ensures Contains(s, sub) <==> exists i :: OccursAt(s, sub, i)
  {
    if Contains(s, sub) {
      assert OccursAt(s, sub, Find(s, sub).value);
    }
  }

  /** Python's `sep.join(parts)`. */
  function Join(parts: seq<string>, sep: string): string
  {
    if |parts| == 0 then ""
    else if |parts| == 1 then parts[0]
    else parts[0] + sep + Join(parts[1..], sep)
  }

  /** Python's `s.split(sep)` for a non-empty separator. */
  function Split(s: string, sep: string): (parts: seq<string>)
    requires |sep| > 0
    ensures |parts| >= 1
    ensures Join(parts, sep) == s
    decreases |s|
  {
    match Find(s, sep)
    case None => [s]
    case Some(i) =>
      var rest := Split(s[i + |sep|..], sep);
      assert ([s[..i]] + rest)[1..] == rest;
      assert s == s[..i] + sep + s[i + |sep|..];
      [s[..i]] + rest
  }

  /** When the separator occurs, the first part is the text before its first occurrence and
      the remaining parts are the split of the text after it. */
  lemma SplitFound(s: string, sep: string)
    requires |sep| > 0 && Contains(s, sep)
    ensures var i := Find(s, sep).value;
      |Split(s, sep)| >= 2
      && Split(s, sep)[0] == s[..i]
      && Split(s, sep)[1..] == Split(s[i + |sep|..], sep)
  {
    var i := Find(s, sep).value;
    var rest := Split(s[i + |sep|..], sep);
    assert Split(s, sep) == [s[..i]] + rest;
  }

  lemma SplitAbsent(s: string, sep: string)
    requires |sep| > 0 && !Contains(s, sep)
    ensures Split(s, sep) == [s]
  {
  }

  /** Python's `sep.join(s.split(sep)[1:])`: everything after the first separator. */
  lemma JoinAfterFirst(s: string, sep: string)
    requires |sep| > 0 && Contains(s, sep)
    ensures Join(Split(s, sep)[1..], sep) == s[Find(s, sep).value + |sep|..]
  {
    SplitFound(s, sep);
  }

  lemma NoOccurrenceInPrefix(s: string, sep: string, i: nat)
    requires |sep| > 0 && i <= |s|
    requires forall j :: 0 <= j < i ==> !OccursAt(s, sep, j)
    ensures !Contains(s[..i], sep)
  {
    if Contains(s[..i], sep) {
      var j := Find(s[..i], sep).value;
      assert s[..i][j..j + |sep|] == s[j..j + |sep|];
      assert j < i && OccursAt(s, sep, j);
      assert false;
    }
  }

  /** `find` returns an occurrence that has no earlier one. */
  lemma FindFirst(s: string, sub: string, i: nat)
    requires OccursAt(s, sub, i)
    requires forall j :: 0 <= j < i ==> !OccursAt(s, sub, j)
    ensures Find(s, sub) == Some(i)
  {
  }

  /** Splitting `a + sep + b` where no occurrence starts inside `a`: `a` is the first part and
      the split of `b` follows. */
  lemma SplitAfterFirst(a: string, sep: string, b: string)
    requires |sep| > 0
    requires forall j :: 0 <= j < |a| ==> !OccursAt(a + sep + b, sep, j)
    ensures Split(a + sep + b, sep) == [a] + Split(b, sep)
  {
    var s := a + sep + b;
    assert s[|a|..|a| + |sep|] == sep;
    FindFirst(s, sep, |a|);
    assert s[..|a|] == a && s[|a| + |sep|..] == b;
    SplitFound(s, sep);
  }

  lemma OccursInSuffix(p: string, t: string, sub: string)
    ensures forall j :: j >= 0 ==> (OccursAt(p + t, sub, |p| + j) <==> OccursAt(t, sub, j))
  {
    var s := p + t;
    forall j | j >= 0
      ensures OccursAt(s, sub, |p| + j) <==> OccursAt(t, sub, j)
    {
      if |p| + j + |sub| <= |s| {
        assert s[|p| + j..|p| + j + |sub|] == t[j..j + |sub|];
      }
    }
  }

  lemma NoOccurrenceFromPrefix(p: string, t: string, sep: string)
    requires |sep| > 0
    requires forall k :: 0 <= k < |p| ==> p[k] != sep[0]
    ensures forall j :: 0 <= j < |p| ==> !OccursAt(p + t, sep, j)
  {
    var s := p + t;
    forall j | 0 <= j < |p|
      ensures !OccursAt(s, sep, j)
    {
      if j + |sep| <= |s| {
        assert s[j..j + |sep|][0] == p[j];
      }
    }
  }

  /** A prefix `p` none of whose characters starts the separator is glued to the first part. */
  lemma SplitHeadPrefix(p: string, t: string, sep: string)
    requires |sep| > 0
    requires forall k :: 0 <= k < |p| ==> p[k] != sep[0]
    ensures Split(p + t, sep)[0] == p + Split(t, sep)[0]
    ensures Split(p + t, sep)[1..] == Split(t, sep)[1..]
  {
    NoOccurrenceFromPrefix(p, t, sep);
    SplitHeadPrefixFree(p, t, sep);
  }

  /** Splitting `p + t` where no occurrence of the separator starts inside `p`: `p` joins the
      first part of `t`, and the other parts are those of `t`. */
  lemma SplitHeadPrefixFree(p: string, t: string, sep: string)
    requires |sep| > 0
    requires forall j :: 0 <= j < |p| ==> !OccursAt(p + t, sep, j)
    ensures Split(p + t, sep)[0] == p + Split(t, sep)[0]
    ensures Split(p + t, sep)[1..] == Split(t, sep)[1..]
  {
    var s := p + t;
    OccursInSuffix(p, t, sep);
    match Find(t, sep)
    case None =>
      forall j | |p| <= j
        ensures !OccursAt(s, sep, j)
      {
        assert !OccursAt(t, sep, j - |p|);
      }
      SplitAbsent(s, sep);
      SplitAbsent(t, sep);
    case Some(f) =>
      SplitHeadPrefixFound(p, t, sep, f);
  }

  /** The case of `SplitHeadPrefixFree` where `t` holds the separator, first at `f`. */
  lemma SplitHeadPrefixFound(p: string, t: string, sep: string, f: nat)
    requires |sep| > 0 && Find(t, sep) == Some(f)
    requires forall j :: 0 <= j < |p| ==> !OccursAt(p + t, sep, j)
    ensures Split(p + t, sep)[0] == p + Split(t, sep)[0]
    ensures Split(p + t, sep)[1..] == Split(t, sep)[1..]
  {
    var a := p + t[..f];
    var b := t[f + |sep|..];
    NoOccurrenceBefore(p, t, sep, f);
    Regroup(p, t, sep, f);
    SplitAfterFirst(a, sep, b);
    SplitFound(t, sep);
  }

  /** `p + t` read around the occurrence of `sep` at `f` in `t`. */
  lemma Regroup(p: string, t: string, sep: string, f: nat)
    requires OccursAt(t, sep, f)
    ensures p + t == (p + t[..f]) + sep + t[f + |sep|..]
  {
    assert t == t[..f] + t[f..f + |sep|] + t[f + |sep|..];
  }

  /** No occurrence starts in `p + t` before the first one of `t`, when none starts in `p`. */
  lemma NoOccurrenceBefore(p: string, t: string, sep: string, f: nat)
    requires Find(t, sep) == Some(f)
    requires forall j :: 0 <= j < |p| ==> !OccursAt(p + t, sep, j)
    ensures forall j :: 0 <= j < |p| + f ==> !OccursAt(p + t, sep, j)
  {
    OccursInSuffix(p, t, sep);
    forall j | |p| <= j < |p| + f
      ensures !OccursAt(p + t, sep, j)
    {
      assert !OccursAt(t, sep, j - |p|);
    }
  }

  /** A string splits into more than one part exactly when it contains the separator. */
  lemma SplitsIffContains(s: string, sep: string)
    requires |sep| > 0
    ensures |Split(s, sep)| > 1 <==> Contains(s, sep)
  {
    if Contains(s, sep) {
      SplitFound(s, sep);
    } else {
      SplitAbsent(s, sep);
    }
  }

  /** A string that starts with the separator splits with an empty first part. */
  lemma SplitLeadingSep(sep: string, t: string)
    requires |sep| > 0
    ensures Split(sep + t, sep)[0] == ""
  {
    var s := sep + t;
    assert s[..|sep|] == sep;
    assert Find(s, sep) == Some(0);
  }

  /** No part produced by `split` contains the separator. */
  lemma {:induction false} SplitPartsLackSep(s: string, sep: string)
    requires |sep| > 0
    ensures forall k :: 0 <= k < |Split(s, sep)| ==> !Contains(Split(s, sep)[k], sep)
    decreases |s|
  {
    if Contains(s, sep) {
      var i := Find(s, sep).value;
      SplitFound(s, sep);
      NoOccurrenceInPrefix(s, sep, i);
      SplitPartsLackSep(s[i + |sep|..], sep);
      var parts := Split(s, sep);
      forall k | 0 <= k < |parts|
        ensures !Contains(parts[k], sep)
      {
        if k > 0 {
          assert parts[k] == parts[1..][k - 1];
        }
      }
    } else {
      SplitAbsent(s, sep);
    }
  }

  /** No character of `s` is `c`. */
  predicate Lacks(s: string, c: char)
  {
    forall k :: 0 <= k < |s| ==> s[k] != c
  }

  /** For a one-character separator, `c in s` is "some character of `s` is `c`". */
  lemma ContainsCharIff(s: string, c: char)
    ensures Contains(s, [c]) <==> !Lacks(s, c)
  {
    if Contains(s, [c]) {
      var i := Find(s, [c]).value;
      assert s[i..i + 1][0] == s[i];
    }
    if !Lacks(s, c) {
      var k :| 0 <= k < |s| && s[k] == c;
      assert s[k..k + 1] == [c];
      assert OccursAt(s, [c], k);
    }
  }

  /** A joined string lacks `c` exactly when its parts do and, between two parts, the glue does. */
  lemma {:induction false} LacksJoin(parts: seq<string>, sep: string, c: char)
    ensures Lacks(Join(parts, sep), c) <==>
      (forall k :: 0 <= k < |parts| ==> Lacks(parts[k], c)) && (|parts| > 1 ==> Lacks(sep, c))
  {
    if |parts| > 1 {
      LacksJoin(parts[1..], sep, c);
      var rest := Join(parts[1..], sep);
      assert Join(parts, sep) == parts[0] + sep + rest;
      assert forall k :: 1 <= k < |parts| ==> parts[k] == parts[1..][k - 1];
      var whole := Join(parts, sep);
      if Lacks(whole, c) {
        forall k | 0 <= k < |parts[0]|
          ensures parts[0][k] != c
        {
          assert parts[0][k] == whole[k];
        }
        forall k | 0 <= k < |rest|
          ensures rest[k] != c
        {
          assert rest[k] == whole[|parts[0]| + |sep| + k];
        }
        forall k | 0 <= k < |sep|
          ensures sep[k] != c
        {
          assert sep[k] == whole[|parts[0]| + k];
        }
      }
      if Lacks(parts[0], c) && Lacks(sep, c) && Lacks(rest, c) {
        forall k | 0 <= k < |whole|
          ensures whole[k] != c
        {
          if k < |parts[0]| {
            assert whole[k] == parts[0][k];
          } else if k < |parts[0]| + |sep| {
            assert whole[k] == sep[k - |parts[0]|];
          } else {
            assert whole[k] == rest[k - |parts[0]| - |sep|];
          }
        }
      }
    }
  }

  /** The parts `split` makes of a string lacking `c` lack it too. */
  lemma SplitPartsLack(s: string, sep: string, c: char)
    requires |sep| > 0 && Lacks(s, c)
    ensures forall k :: 0 <= k < |Split(s, sep)| ==> Lacks(Split(s, sep)[k], c)
  {
    LacksJoin(Split(s, sep), sep, c);
  }

  /** The position of the last `c` in `s` (`s.rfind(c)`). */
  function LastIndexOf(s: string, c: char): (r: Option<nat>)
    ensures r.Some? ==> r.value < |s| && s[r.value] == c && forall k :: r.value < k < |s| ==> s[k] != c
    ensures r.None? ==> Lacks(s, c)
  {
    if |s| == 0 then None
    else if s[|s| - 1] == c then Some(|s| - 1)
    else LastIndexOf(s[..|s| - 1], c)
  }

  /** Python's `s.replace(pat, rep)` for a non-empty `pat`: every non-overlapping occurrence,
      left to right. */
  function ReplaceAll(s: string, pat: string, rep: string): string
    requires |pat| > 0
  {
    Join(Split(s, pat), rep)
  }

  /** `replace` leaves a string without the pattern unchanged. */
  lemma ReplaceAbsent(s: string, pat: string, rep: string)
    requires |pat| > 0 && !Contains(s, pat)
    ensures ReplaceAll(s, pat, rep) == s
  {
    SplitAbsent(s, pat);
  }

  /** A string starting with the pattern has that occurrence replaced and the rest rewritten
      the same way. */
  lemma ReplacePrefix(t: string, pat: string, rep: string)
    requires |pat| > 0
    ensures ReplaceAll(pat + t, pat, rep) == rep + ReplaceAll(t, pat, rep)
  {
    var s := pat + t;
    assert s[..|pat|] == pat;
    assert Find(s, pat) == Some(0);
    assert s[|pat|..] == t;
    SplitFound(s, pat);
    var parts := Split(s, pat);
    assert parts == [""] + Split(t, pat);
  }

  /** Python's `s.startswith(p)` and `s.endswith(p)`. */
  predicate StartsWith(s: string, p: string)
  {
    |p| <= |s| && s[..|p|] == p
  }

  lemma StartsWithConcat(p: string, t: string)
    ensures StartsWith(p + t, p)
  {
    assert (p + t)[..|p|] == p;
  }

  predicate EndsWith(s: string, p: string)
  {
    |p| <= |s| && s[|s| - |p|..] == p
  }

  /** Python's `str.isspace` for one character: the ASCII whitespace and the Unicode
      separators Python treats as whitespace. */
  predicate IsSpace(c: char)
  {
    c == ' ' || ('\t' <= c <= '\r') || ('\U{1C}' <= c <= '\U{1F}') || c == '\U{85}'
    || c == '\U{A0}' || c == '\U{1680}' || ('\U{2000}' <= c <= '\U{200A}')
    || c == '\U{2028}' || c == '\U{2029}' || c == '\U{202F}' || c == '\U{205F}'
    || c == '\U{3000}'
  }

  /** Python's `s.lstrip()`: the longest suffix not starting with whitespace. */
  function StripLeft(s: string): (r: string)
    ensures |r| <= |s| && r == s[|s| - |r|..]
    ensures forall k :: 0 <= k < |s| - |r| ==> IsSpace(s[k])
    ensures r == [] || !IsSpace(r[0])
  {
    if |s| > 0 && IsSpace(s[0]) then StripLeft(s[1..]) else s
  }

  /** Python's `s.rstrip()`: the longest prefix not ending with whitespace. */
  function StripRight(s: string): (r: string)
    ensures |r| <= |s| && r == s[..|r|]
    ensures forall k :: |r| <= k < |s| ==> IsSpace(s[k])
    ensures r == [] || !IsSpace(r[|r| - 1])
  {
    if |s| > 0 && IsSpace(s[|s| - 1]) then StripRight(s[..|s| - 1]) else s
  }

  /** Python's `s.strip()`. */
  function Strip(s: string): string
  {
    StripRight(StripLeft(s))
  }

  predicate IsDigit(c: char)
  {
    '0' <= c <= '9'
  }

  /** Python's `s.isdigit()` over ASCII digits: non-empty and digits only. */
  predicate IsDigits(s: string)
  {
    |s| > 0 && forall k :: 0 <= k < |s| ==> IsDigit(s[k])
  }

  /** Python's `int(s)` on a string of ASCII digits. */
  function DigitsValue(s: string): nat
    requires forall k :: 0 <= k < |s| ==> IsDigit(s[k])
  {
    if |s| == 0 then 0
    else
      assert IsDigit(s[|s| - 1]);
      DigitsValue(s[..|s| - 1]) * 10 + (s[|s| - 1] as int - '0' as int)
  }

  function DigitChar(d: nat): (c: char)
    requires d < 10
    ensures IsDigit(c) && c as int - '0' as int == d
  {
    ('0' as int + d) as char
  }

  /** Python's `str(n)` for a non-negative integer. */
  function NatToString(n: nat): (r: string)
    ensures IsDigits(r)
  {
    if n < 10 then [DigitChar(n)] else NatToString(n / 10) + [DigitChar(n % 10)]
  }

  /** `int(str(n)) == n`. */
  lemma {:induction false} NatToStringRoundTrip(n: nat)
    ensures DigitsValue(NatToString(n)) == n
  {
    var s := NatToString(n);
    if n >= 10 {
      NatToStringRoundTrip(n / 10);
      assert s[..|s| - 1] == NatToString(n / 10);
    }
  }

  /** `str(n)` never starts with a zero unless it is "0". */
  lemma NatToStringNoLeadingZero(n: nat)
    ensures n > 0 ==> NatToString(n)[0] != '0'
  {
    if n >= 10 {
      NatToStringNoLeadingZero(n / 10);
    }
  }

  /** `s` padded on the left with zeros to at least `width` characters (the `0Nd` format). */
  function ZeroPad(s: string, width: nat): (r: string)
    ensures |r| == if |s| >= width then |s| else width
    ensures r[|r| - |s|..] == s
    ensures forall k :: 0 <= k < |r| - |s| ==> r[k] == '0'
  {
    if |s| >= width then s else seq(width - |s|, _ => '0') + s
  }

  /** Python's `f"{n:04d}"` for a non-negative integer. */
  function Format04(n: nat): string
  {
    ZeroPad(NatToString(n), 4)
  }

  /** A run of zeros reads as 0. */
  lemma {:induction false} ZerosValue(z: nat)
    ensures DigitsValue(seq(z, _ => '0')) == 0
  {
    if z > 0 {
      assert seq(z, _ => '0')[..z - 1] == seq(z - 1, _ => '0');
      ZerosValue(z - 1);
    }
  }

  /** Leading zeros do not change `int(s)`. */
  lemma {:induction false} DigitsValueLeadingZeros(z: nat, s: string)
    requires forall k :: 0 <= k < |s| ==> IsDigit(s[k])
    ensures DigitsValue(seq(z, _ => '0') + s) == DigitsValue(s)
  {
    var t := seq(z, _ => '0') + s;
    if |s| == 0 {
      assert t == seq(z, _ => '0');
      ZerosValue(z);
    } else {
      var init := s[..|s| - 1];
      DigitsValueLeadingZeros(z, init);
      assert t[..|t| - 1] == seq(z, _ => '0') + init;
    }
  }

  /** `int(f"{n:04d}") == n`: the padded form is all digits and reads back as `n`. */
  lemma Format04Value(n: nat)
    ensures IsDigits(Format04(n)) && DigitsValue(Format04(n)) == n
  {
    var s := NatToString(n);
    NatToStringRoundTrip(n);
    if |s| < 4 {
      DigitsValueLeadingZeros(4 - |s|, s);
    }
  }

  lemma Format04Examples()
    ensures Format04(7) == "0007" && Format04(12345) == "12345"
  {
    assert NatToString(7) == "7";
    assert NatToString(1) == "1";
    assert NatToString(12) == "12";
    assert NatToString(123) == "123";
    assert NatToString(1234) == "1234";
    assert NatToString(12345) == "12345";
  }
}
