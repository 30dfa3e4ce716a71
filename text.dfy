/** String helpers with the semantics of the Python and JavaScript built-ins the source relies on. */
module Text {

  predicate IsDigit(c: char) { '0' <= c <= '9' }

  predicate AllDigits(s: string) { forall i :: 0 <= i < |s| ==> IsDigit(s[i]) }

  /** `s.startswith(p)` */
  predicate StartsWith(s: string, p: string) { |p| <= |s| && s[..|p|] == p }

  /** `sub in s` */
  predicate Contains(s: string, sub: string)
    decreases |s|
  {
    StartsWith(s, sub) || (|s| > 0 && Contains(s[1..], sub))
  }

  /** `sep.join(parts)` (Python) and `parts.join(sep)` (JavaScript). */
  function Join(parts: seq<string>, sep: string): string
  {
    if |parts| == 0 then ""
    else if |parts| == 1 then parts[0]
    else parts[0] + sep + Join(parts[1..], sep)
  }

  /** Python's `s.replace(pat, rep)`: every non-overlapping occurrence, scanning left to right. */
  function ReplaceAll(s: string, pat: string, rep: string): string
    requires |pat| > 0
    decreases |s|
  {
    if |s| < |pat| then s
    else if s[..|pat|] == pat then rep + ReplaceAll(s[|pat|..], pat, rep)
    else [s[0]] + ReplaceAll(s[1..], pat, rep)
  }

  /** Python's `s.split(sep)[-1]`: the piece after the last separator the left-to-right scan finds. */
  function LastPiece(s: string, sep: string): string
    requires |sep| > 0
  {
    LastPieceFrom(s, sep, "")
  }

  /** The scan behind LastPiece; `cur` is the piece read since the last separator. */
  function LastPieceFrom(s: string, sep: string, cur: string): string
    requires |sep| > 0
    decreases |s|
  {
    if |s| == 0 then cur
    else if StartsWith(s, sep) then LastPieceFrom(s[|sep|..], sep, "")
    else LastPieceFrom(s[1..], sep, cur + [s[0]])
  }

  function DigitChar(d: nat): (c: char)
    requires d < 10
    ensures IsDigit(c) && (c as int) - ('0' as int) == d
  {
    ('0' as int + d) as char
  }

  /** Decimal rendering of a natural number, as `str(n)` and `String(n)` give it. */
  function NatToString(n: nat): (s: string)
    ensures |s| >= 1 && AllDigits(s)
    decreases n
  {
    if n < 10 then [DigitChar(n)] else NatToString(n / 10) + [DigitChar(n % 10)]
  }

  /** Decimal rendering of an integer with a leading '-' when negative (JavaScript's `toString`). */
  function IntToString(i: int): string
  {
    if i < 0 then "-" + NatToString(-i) else NatToString(i)
  }

  /** The number a string of decimal digits denotes; the inverse of NatToString. */
  function DigitsValue(s: string): nat
    requires AllDigits(s)
  {
    if |s| == 0 then 0
    else DigitsValue(s[..|s| - 1]) * 10 + ((s[|s| - 1] as int) - ('0' as int))
  }

  /** JavaScript's `s.padStart(width, c)` and Python's zero-padding `:0<width>d`:
      pads on the left up to `width` characters and never truncates. */
  function PadStart(s: string, width: nat, c: char): (r: string)
    ensures |r| == if |s| >= width then |s| else width
    ensures r[|r| - |s|..] == s
    ensures forall i :: 0 <= i < |r| - |s| ==> r[i] == c
    decreases width - |s|
  {
    if |s| >= width then s else PadStart([c] + s, width, c)
  }

  /** Zero-padding to two digits (`f"{n:02d}"`, `String(n).padStart(2, '0')`). */
  function Pad2(n: nat): (s: string)
    ensures AllDigits(s) && |s| >= 2
  {
    if n < 10 then ['0', DigitChar(n)] else NatToString(n)
  }

  /** Pad2 is two-character zero-padding of the decimal rendering. */
  lemma Pad2IsPadStart(n: nat)
    ensures Pad2(n) == PadStart(NatToString(n), 2, '0')
  {
    if n < 10 {
      assert PadStart(NatToString(n), 2, '0') == PadStart(['0'] + NatToString(n), 2, '0');
    }
  }

  lemma {:induction false} NatToStringRoundTrip(n: nat)
    ensures DigitsValue(NatToString(n)) == n
    decreases n
  {
    if n >= 10 {
      var s := NatToString(n);
      NatToStringRoundTrip(n / 10);
      assert s[..|s| - 1] == NatToString(n / 10);
    }
  }

  lemma {:induction false} LeadingZeroIgnored(s: string)
    requires AllDigits(s)
    ensures AllDigits(['0'] + s) && DigitsValue(['0'] + s) == DigitsValue(s)
    decreases |s|
  {
    var z := ['0'] + s;
    if |s| > 0 {
      LeadingZeroIgnored(s[..|s| - 1]);
      assert z[..|z| - 1] == ['0'] + s[..|s| - 1];
    }
  }

  lemma {:induction false} ZeroPaddingKeepsValue(s: string, width: nat)
    requires AllDigits(s)
    ensures AllDigits(PadStart(s, width, '0'))
    ensures DigitsValue(PadStart(s, width, '0')) == DigitsValue(s)
    decreases width - |s|
  {
    if |s| < width {
      LeadingZeroIgnored(s);
      ZeroPaddingKeepsValue(['0'] + s, width);
    }
  }

  /** Reading a zero-padded rendering back gives the number that was padded. */
  lemma Pad2RoundTrip(n: nat)
    ensures DigitsValue(Pad2(n)) == n
    ensures n < 100 ==> |Pad2(n)| == 2
  {
    NatToStringRoundTrip(n);
    Pad2IsPadStart(n);
    ZeroPaddingKeepsValue(NatToString(n), 2);
    if 10 <= n < 100 {
      assert n / 10 < 10;
    }
  }

  /** Removing a pattern that cannot start anywhere in `s` leaves `s` as it is. */
  lemma {:induction false} ReplaceAbsent(s: string, pat: string, rep: string)
    requires |pat| > 0
    requires forall i :: 0 <= i < |s| ==> s[i] != pat[0]
    ensures ReplaceAll(s, pat, rep) == s
    decreases |s|
  {
    if |s| >= |pat| {
      assert s[..|pat|][0] == s[0];
      ReplaceAbsent(s[1..], pat, rep);
    }
  }

  /** `sub` found at position `i` makes `Contains(s, sub)` true. */
  lemma {:induction false} ContainsAt(s: string, sub: string, i: nat)
    requires i + |sub| <= |s| && s[i..i + |sub|] == sub
    ensures Contains(s, sub)
    decreases i
  {
    if i == 0 {
      assert StartsWith(s, sub);
    } else {
      assert s[1..][i - 1..i - 1 + |sub|] == sub;
      ContainsAt(s[1..], sub, i - 1);
    }
  }

  /** Text before a match does not hide it. */
  lemma {:induction false} ContainsAfterPrefix(p: string, t: string, sub: string)
    requires Contains(t, sub)
    ensures Contains(p + t, sub)
    decreases |p|
  {
    if p == [] {
      assert p + t == t;
    } else {
      ContainsAfterPrefix(p[1..], t, sub);
      assert (p + t)[1..] == p[1..] + t;
    }
  }

  /** Text after a match does not hide it. */
  lemma {:induction false} ContainsBeforeSuffix(t: string, q: string, sub: string)
    requires Contains(t, sub)
    ensures Contains(t + q, sub)
    decreases |t|
  {
    if StartsWith(t, sub) {
      assert (t + q)[..|sub|] == t[..|sub|];
    } else {
      ContainsBeforeSuffix(t[1..], q, sub);
      assert (t + q)[1..] == t[1..] + q;
    }
  }

  lemma JoinTwo(a: string, b: string, sep: string)
    ensures Join([a] + [b], sep) == a + sep + b
  {
    assert ([a] + [b])[1..] == [b];
  }

  /** The joined string begins with the first part. */
  lemma JoinStartsWithFirst(parts: seq<string>, sep: string)
    requires |parts| >= 1
    ensures StartsWith(Join(parts, sep), parts[0])
  {
    if |parts| > 1 {
      assert Join(parts, sep) == parts[0] + (sep + Join(parts[1..], sep));
    }
  }

  /** Every part can be found in the joined string. */
  lemma {:induction false} JoinContainsParts(parts: seq<string>, sep: string)
    ensures forall i :: 0 <= i < |parts| ==> Contains(Join(parts, sep), parts[i])
    decreases |parts|
  {
    if |parts| == 1 {
      ContainsAt(parts[0], parts[0], 0);
    } else if |parts| > 1 {
      var rest := Join(parts[1..], sep);
      JoinContainsParts(parts[1..], sep);
      assert Join(parts, sep) == parts[0] + (sep + rest);
      ContainsAt(parts[0], parts[0], 0);
      ContainsBeforeSuffix(parts[0], sep + rest, parts[0]);
      forall i | 1 <= i < |parts|
        ensures Contains(Join(parts, sep), parts[i])
      {
        assert parts[1..][i - 1] == parts[i];
        ContainsAfterPrefix(parts[0] + sep, rest, parts[i]);
        assert parts[0] + sep + rest == parts[0] + (sep + rest);
      }
    }
  }

  /** A separator-free tail is read to its end as one piece. */
  lemma {:induction false} LastPieceNoSeparator(s: string, sep: string, cur: string)
    requires |sep| > 0
    requires forall i :: 0 <= i < |s| ==> s[i] != sep[0]
    ensures LastPieceFrom(s, sep, cur) == cur + s
    decreases |s|
  {
    if |s| > 0 {
      assert !StartsWith(s, sep) by {
        if |sep| <= |s| { assert s[..|sep|][0] == s[0]; }
      }
      LastPieceNoSeparator(s[1..], sep, cur + [s[0]]);
      assert cur + [s[0]] + s[1..] == cur + s;
    }
  }

  /** `(sep + q).split(sep)[-1] == q` when `q` holds no separator. */
  lemma LastPieceAfterSeparator(sep: string, q: string)
    requires |sep| > 0
    requires forall i :: 0 <= i < |q| ==> q[i] != sep[0]
    ensures LastPiece(sep + q, sep) == q
  {
    var s := sep + q;
    assert StartsWith(s, sep);
    assert s[|sep|..] == q;
    LastPieceNoSeparator(q, sep, "");
  }
}
