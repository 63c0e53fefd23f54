/**
 * The string operations the dashboard applies to its file-id field and to
 * HTTP status codes: `String.prototype.split` on one character, `trim`,
 * `parseInt(s, 10)`, and the decimal rendering of a non-negative integer
 * inside a template literal.
 */
module Text {
  import opened Wrappers

  /* ---------- split and join on one separator character ---------- */

  /** Number of occurrences of `c` in `s`. */
  function Count(s: string, c: char): nat
  {
    if s == [] then 0 else (if s[0] == c then 1 else 0) + Count(s[1..], c)
  }

  /**
   * `s.split(sep)` for a one-character separator: the maximal runs between
   * separators, in order, including empty ones; the empty string gives `[""]`.
   */
  function Split(s: string, sep: char): (parts: seq<string>)
    ensures |parts| == Count(s, sep) + 1
    ensures forall i :: 0 <= i < |parts| ==> sep !in parts[i]
  {
    if s == [] then [[]]
    else
      var rest := Split(s[1..], sep);
      if s[0] == sep then [[]] + rest
      else [[s[0]] + rest[0]] + rest[1..]
  }

  /** `parts.join(sep)`. */
  function Join(parts: seq<string>, sep: char): string
    requires |parts| >= 1
  {
    if |parts| == 1 then parts[0] else parts[0] + [sep] + Join(parts[1..], sep)
  }

  /** Joining the pieces of a split gives back the input. */
  lemma {:induction false} JoinSplit(s: string, sep: char)
    ensures Join(Split(s, sep), sep) == s
  {
    if s != [] {
      var rest := Split(s[1..], sep);
      JoinSplit(s[1..], sep);
      if s[0] == sep {
        assert Split(s, sep) == [[]] + rest;
        assert Split(s, sep)[1..] == rest;
      } else {
        var parts := Split(s, sep);
        assert parts == [[s[0]] + rest[0]] + rest[1..];
        if |rest| == 1 {
          assert parts == [[s[0]] + rest[0]];
        } else {
          assert parts[1..] == rest[1..];
          assert Join(rest, sep) == rest[0] + [sep] + Join(rest[1..], sep);
        }
      }
    }
  }

  /** Splitting a join of separator-free pieces gives back the pieces. */
  lemma {:induction false} SplitJoin(parts: seq<string>, sep: char)
    requires |parts| >= 1
    requires forall i :: 0 <= i < |parts| ==> sep !in parts[i]
    ensures Split(Join(parts, sep), sep) == parts
  {
    if |parts| == 1 {
      SplitPiece(parts[0], sep);
    } else {
      SplitJoin(parts[1..], sep);
      SplitPieceThen(parts[0], sep, Join(parts[1..], sep));
      assert [parts[0]] + parts[1..] == parts;
    }
  }

  /** A separator-free string splits into itself. */
  lemma {:induction false} SplitPiece(p: string, sep: char)
    requires sep !in p
    ensures Split(p, sep) == [p]
  {
    if p != [] {
      SplitPiece(p[1..], sep);
      assert [p[0]] + p[1..] == p;
    }
  }

  /** A separator-free piece, the separator, then anything: the piece comes first. */
  lemma {:induction false} SplitPieceThen(p: string, sep: char, t: string)
    requires sep !in p
    ensures Split(p + [sep] + t, sep) == [p] + Split(t, sep)
  {
    if p == [] {
      assert [] + [sep] + t == [sep] + t;
      assert ([sep] + t)[1..] == t;
    } else {
      var s := p + [sep] + t;
      assert s[0] == p[0] && s[1..] == p[1..] + [sep] + t;
      SplitPieceThen(p[1..], sep, t);
      assert [p[0]] + p[1..] == p;
    }
  }

  /* ---------- whitespace and trim ---------- */

  /**
   * The characters JavaScript's `trim` removes: the WhiteSpace and
   * LineTerminator code points of section 12.2 and 12.3 of ECMA-262
   * (tab, vertical tab, form feed, space, no-break space, the byte order
   * mark, every space separator of Unicode category Zs, LF, CR, and the
   * line and paragraph separators).
   */
  predicate IsWhitespace(c: char)
  {
    var n := c as int;
    n == 0x09 || n == 0x0B || n == 0x0C || n == 0x20 || n == 0xA0 || n == 0xFEFF ||
    n == 0x1680 || (0x2000 <= n <= 0x200A) || n == 0x202F || n == 0x205F || n == 0x3000 ||
    n == 0x0A || n == 0x0D || n == 0x2028 || n == 0x2029
  }

  /** Every character of `s` is whitespace. */
  predicate Blank(s: string)
  {
    forall i :: 0 <= i < |s| ==> IsWhitespace(s[i])
  }

  /** `s` with its leading whitespace removed. */
  function TrimStart(s: string): string
  {
    if s != [] && IsWhitespace(s[0]) then TrimStart(s[1..]) else s
  }

  /** TrimStart drops a whitespace prefix and nothing else, and stops at the first other character. */
  lemma {:induction false} TrimStartSpec(s: string)
    ensures |TrimStart(s)| <= |s| && TrimStart(s) == s[|s| - |TrimStart(s)|..]
    ensures Blank(s[..|s| - |TrimStart(s)|])
    ensures TrimStart(s) != [] ==> !IsWhitespace(TrimStart(s)[0])
  {
    if s != [] && IsWhitespace(s[0]) {
      TrimStartSpec(s[1..]);
      var r := TrimStart(s[1..]);
      assert s[1..][|s| - 1 - |r|..] == s[|s| - |r|..];
      forall i | 0 <= i < |s| - |r|
        ensures IsWhitespace(s[i])
      {
        if i > 0 {
          assert s[i] == s[1..][..|s| - 1 - |r|][i - 1];
        }
      }
    }
  }

  /** `s` with its trailing whitespace removed. */
  function TrimEnd(s: string): string
  {
    if s != [] && IsWhitespace(s[|s| - 1]) then TrimEnd(s[..|s| - 1]) else s
  }

  /** TrimEnd drops a whitespace suffix and nothing else, and stops at the last other character. */
  lemma {:induction false} TrimEndSpec(s: string)
    ensures |TrimEnd(s)| <= |s| && TrimEnd(s) == s[..|TrimEnd(s)|]
    ensures Blank(s[|TrimEnd(s)|..])
    ensures TrimEnd(s) != [] ==> !IsWhitespace(TrimEnd(s)[|TrimEnd(s)| - 1])
  {
    if s != [] && IsWhitespace(s[|s| - 1]) {
      var p := s[..|s| - 1];
      TrimEndSpec(p);
      var r := TrimEnd(p);
      assert p[..|r|] == s[..|r|];
      forall i | |r| <= i < |s|
        ensures IsWhitespace(s[i])
      {
        if i < |s| - 1 {
          assert s[i] == p[|r|..][i - |r|];
        }
      }
    }
  }

  /** `s.trim()`. */
  function Trim(s: string): string
  {
    TrimEnd(TrimStart(s))
  }

  /**
   * Trim keeps one contiguous slice `s[i..j]` of its input and drops only
   * whitespace around it; the slice neither starts nor ends with whitespace.
   */
  lemma TrimSlice(s: string) returns (i: nat, j: nat)
    ensures i <= j <= |s| && Trim(s) == s[i..j]
    ensures Blank(s[..i]) && Blank(s[j..])
    ensures i < j ==> !IsWhitespace(s[i]) && !IsWhitespace(s[j - 1])
  {
    var t := TrimStart(s);
    var r := TrimEnd(t);
    TrimStartSpec(s);
    TrimEndSpec(t);
    i := |s| - |t|;
    j := i + |r|;
    assert t == s[i..];
    assert r == s[i..][..|r|] == s[i..j];
    assert s[j..] == t[|r|..];
    if i < j {
      assert s[i] == t[0] == r[0];
      assert s[j - 1] == r[|r| - 1];
    }
  }

  /* ---------- decimal digits ---------- */

  predicate IsDigit(c: char)
  {
    '0' <= c <= '9'
  }

  predicate AllDigits(s: string)
  {
    forall i :: 0 <= i < |s| ==> IsDigit(s[i])
  }

  function DigitValue(c: char): (d: nat)
    requires IsDigit(c)
    ensures d < 10
  {
    c as int - '0' as int
  }

  function DigitChar(d: nat): (c: char)
    requires d < 10
    ensures IsDigit(c) && DigitValue(c) == d
  {
    ('0' as int + d) as char
  }

  /** The number a string of decimal digits denotes, most significant first. */
  function DigitsValue(ds: string): nat
    requires AllDigits(ds)
  {
    if ds == [] then 0 else DigitsValue(ds[..|ds| - 1]) * 10 + DigitValue(ds[|ds| - 1])
  }

  /** The longest prefix of `s` made of decimal digits. */
  function DigitPrefix(s: string): (r: string)
    ensures AllDigits(r)
  {
    if s != [] && IsDigit(s[0]) then [s[0]] + DigitPrefix(s[1..]) else []
  }

  /** DigitPrefix is a prefix, and the character after it, if any, is not a digit. */
  lemma {:induction false} DigitPrefixSpec(s: string)
    ensures |DigitPrefix(s)| <= |s| && DigitPrefix(s) == s[..|DigitPrefix(s)|]
    ensures |DigitPrefix(s)| < |s| ==> !IsDigit(s[|DigitPrefix(s)|])
  {
    if s != [] && IsDigit(s[0]) {
      DigitPrefixSpec(s[1..]);
      var r := DigitPrefix(s[1..]);
      assert s[..1 + |r|] == [s[0]] + s[1..][..|r|];
    }
  }

  /** The decimal rendering of `n` with no leading zeros, as `${n}` prints it. */
  function NatToString(n: nat): (s: string)
    ensures s != [] && AllDigits(s)
    ensures |s| > 1 ==> s[0] != '0'
  {
    if n < 10 then [DigitChar(n)] else NatToString(n / 10) + [DigitChar(n % 10)]
  }

  lemma {:induction false} DigitsValueOfNatToString(n: nat)
    ensures DigitsValue(NatToString(n)) == n
  {
    if n >= 10 {
      var s := NatToString(n);
      DigitsValueOfNatToString(n / 10);
      assert s[..|s| - 1] == NatToString(n / 10);
    }
  }

  /* ---------- parseInt ---------- */

  /**
   * `parseInt(s, 10)`: skip leading whitespace, take an optional `+` or `-`,
   * then the longest run of decimal digits; no digit at all gives `NaN`,
   * written `None`.
   */
  function ParseInt(s: string): Option<int>
  {
    ParseSigned(TrimStart(s))
  }

  /** The sign step of `parseInt`, on a string with no leading whitespace. */
  function ParseSigned(t: string): Option<int>
  {
    if t != [] && t[0] == '-' then
      match ParseDigits(t[1..])
      case None => None
      case Some(v) => Some(-v)
    else if t != [] && t[0] == '+' then ParseDigits(t[1..])
    else ParseDigits(t)
  }

  /** The digit step of `parseInt`: the value of the leading digits, if any. */
  function ParseDigits(u: string): (r: Option<int>)
    ensures r.Some? ==> r.value >= 0
  {
    var ds := DigitPrefix(u);
    if ds == [] then None else Some(DigitsValue(ds))
  }

  lemma {:induction false} TrimStartOfNonBlank(lead: string, t: string)
    requires Blank(lead)
    requires t == [] || !IsWhitespace(t[0])
    ensures TrimStart(lead + t) == t
  {
    if lead == [] {
      assert lead + t == t;
    } else {
      assert (lead + t)[0] == lead[0];
      assert (lead + t)[1..] == lead[1..] + t;
      TrimStartOfNonBlank(lead[1..], t);
    }
  }

  lemma {:induction false} DigitPrefixOfDigits(ds: string, rest: string)
    requires AllDigits(ds)
    requires rest == [] || !IsDigit(rest[0])
    ensures DigitPrefix(ds + rest) == ds
  {
    if ds == [] {
      assert ds + rest == rest;
    } else {
      assert (ds + rest)[0] == ds[0];
      assert (ds + rest)[1..] == ds[1..] + rest;
      DigitPrefixOfDigits(ds[1..], rest);
      assert [ds[0]] + ds[1..] == ds;
    }
  }

  /** The optional sign `parseInt` accepts before the digits. */
  datatype Sign = NoSign | Plus | Minus
  {
    function Text(): string
    {
      match this
      case NoSign => ""
      case Plus => "+"
      case Minus => "-"
    }

    /** The value of an unsigned magnitude under this sign. */
    function Apply(v: nat): int
    {
      if this == Minus then -(v as int) else v
    }
  }

  /**
   * Every string made of whitespace, an optional sign, at least one digit and
   * then anything not starting with a digit parses to the signed value of
   * those digits: the prefix behaviour of `parseInt`.
   */
  lemma ParseIntAccepts(lead: string, sign: Sign, ds: string, rest: string)
    requires Blank(lead)
    requires ds != [] && AllDigits(ds)
    requires rest == [] || !IsDigit(rest[0])
    ensures ParseInt(lead + sign.Text() + ds + rest) == Some(sign.Apply(DigitsValue(ds)))
  {
    var u := ds + rest;
    var t := sign.Text() + u;
    var v := DigitsValue(ds);
    assert lead + sign.Text() + ds + rest == lead + t;
    assert ParseInt(lead + t) == ParseSigned(t) by {
      assert u[0] == ds[0];
      ParseIntSkipsBlank(lead, t);
    }
    assert ParseSigned(t) == Some(sign.Apply(v)) by {
      DigitPrefixOfDigits(ds, rest);
      ParseSignedAccepts(sign, u, v);
    }
  }

  /** Leading whitespace does not change what `parseInt` returns. */
  lemma ParseIntSkipsBlank(lead: string, t: string)
    requires Blank(lead)
    requires t == [] || !IsWhitespace(t[0])
    ensures ParseInt(lead + t) == ParseSigned(t)
  {
    TrimStartOfNonBlank(lead, t);
  }

  lemma ParseSignedAccepts(sign: Sign, u: string, v: nat)
    requires ParseDigits(u) == Some(v)
    ensures ParseSigned(sign.Text() + u) == Some(sign.Apply(v))
  {
    var t := sign.Text() + u;
    match sign
    case NoSign =>
      assert t == u;
      assert u[0] == DigitPrefix(u)[0];
    case Plus =>
      assert t[1..] == u;
    case Minus =>
      assert t[1..] == u;
  }

  /**
   * Every string made of whitespace, an optional sign and then no digit
   * parses to `NaN` (`None`).
   */
  lemma ParseIntRejects(lead: string, sign: Sign, rest: string)
    requires Blank(lead)
    requires rest == [] || !IsDigit(rest[0])
    requires sign == NoSign && rest != [] ==> !IsWhitespace(rest[0]) && rest[0] != '+' && rest[0] != '-'
    ensures ParseInt(lead + sign.Text() + rest) == None
  {
    var t := sign.Text() + rest;
    assert lead + sign.Text() + rest == lead + t;
    assert ParseInt(lead + t) == ParseSigned(t) by {
      ParseIntSkipsBlank(lead, t);
    }
    assert ParseSigned(t) == None by {
      ParseSignedRejects(sign, rest);
    }
  }

  lemma ParseSignedRejects(sign: Sign, rest: string)
    requires rest == [] || !IsDigit(rest[0])
    requires sign == NoSign && rest != [] ==> rest[0] != '+' && rest[0] != '-'
    ensures ParseSigned(sign.Text() + rest) == None
  {
    var t := sign.Text() + rest;
    assert ParseDigits(rest) == None by {
      DigitPrefixOfDigits([], rest);
      assert [] + rest == rest;
    }
    match sign
    case NoSign =>
      assert t == rest;
    case Plus =>
      assert t[1..] == rest;
    case Minus =>
      assert t[1..] == rest;
  }

  /** The digits `${n}` prints parse back to `n`. */
  lemma NatToStringRoundTrip(n: nat)
    ensures ParseInt(NatToString(n)) == Some(n)
  {
    var s := NatToString(n);
    assert [] + NoSign.Text() + s + [] == s;
    assert ParseInt(s) == Some(DigitsValue(s)) by {
      ParseIntAccepts([], NoSign, s, []);
    }
    DigitsValueOfNatToString(n);
  }
}
