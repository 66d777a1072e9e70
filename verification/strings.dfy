/**
 * The JavaScript string operations the dashboard relies on, over `seq<char>`:
 * `trim`, `split` on one character, `join`, `includes`, ASCII `toLowerCase` /
 * `toUpperCase`, `parseInt` (decimal and `0x` hexadecimal) and `String(n)` for integers, plus the
 * comma-list convention used for specialisations.
 */
module Strings {
  import opened Wrappers
  import opened Seqs

  // ---------------------------------------------------------------------------
  // Whitespace and trim

  /** The characters `String.prototype.trim` strips: WhiteSpace and LineTerminator of ECMAScript. */
  predicate IsSpace(c: char) {
    || c == ' ' || c == '\t' || c == '\n' || c == '\r'
    || c == '\U{000B}' || c == '\U{000C}' || c == '\U{00A0}' || c == '\U{FEFF}'
    || c == '\U{1680}' || ('\U{2000}' <= c <= '\U{200A}')
    || c == '\U{2028}' || c == '\U{2029}' || c == '\U{202F}' || c == '\U{205F}' || c == '\U{3000}'
  }

  /** Neither starts nor ends with whitespace. */
  predicate IsTrimmed(s: string) {
    s == [] || (!IsSpace(s[0]) && !IsSpace(s[|s| - 1]))
  }

  /** Drops leading whitespace. */
  function TrimStart(s: string): (r: string)
    ensures |r| <= |s|
    decreases |s|
  {
    if s != [] && IsSpace(s[0]) then TrimStart(s[1..]) else s
  }

  /** What `TrimStart` keeps is the suffix that starts at the first non-space character. */
  lemma {:induction false} TrimStartSpec(s: string)
    ensures TrimStart(s) == s[|s| - |TrimStart(s)|..]
    ensures forall k :: 0 <= k < |s| - |TrimStart(s)| ==> IsSpace(s[k])
    ensures TrimStart(s) == [] || !IsSpace(TrimStart(s)[0])
    decreases |s|
  {
    if s != [] && IsSpace(s[0]) {
      var r := TrimStart(s[1..]);
      TrimStartSpec(s[1..]);
      assert s[1..][|s[1..]| - |r|..] == s[|s| - |r|..];
      assert forall k :: 1 <= k < |s| - |r| ==> s[k] == s[1..][k - 1];
    }
  }

  /** Drops trailing whitespace. */
  function TrimEnd(s: string): (r: string)
    ensures |r| <= |s|
    decreases |s|
  {
    if s != [] && IsSpace(s[|s| - 1]) then TrimEnd(s[..|s| - 1]) else s
  }

  /** What `TrimEnd` keeps is the prefix that ends at the last non-space character. */
  lemma {:induction false} TrimEndSpec(s: string)
    ensures TrimEnd(s) == s[..|TrimEnd(s)|]
    ensures forall k :: |TrimEnd(s)| <= k < |s| ==> IsSpace(s[k])
    ensures TrimEnd(s) == [] || !IsSpace(TrimEnd(s)[|TrimEnd(s)| - 1])
    decreases |s|
  {
    if s != [] && IsSpace(s[|s| - 1]) {
      var r := TrimEnd(s[..|s| - 1]);
      TrimEndSpec(s[..|s| - 1]);
      assert s[..|s| - 1][..|r|] == s[..|r|];
      assert forall k :: |r| <= k < |s| - 1 ==> s[k] == s[..|s| - 1][k];
    }
  }

  /** `s.trim()`. */
  function Trim(s: string): (r: string)
  {
    TrimEnd(TrimStart(s))
  }

  /** How many whitespace characters trim drops at the front. */
  function LeadingSpaces(s: string): nat
  {
    |s| - |TrimStart(s)|
  }

  /** What trim returns has no whitespace at either end, and is the piece of its input after the leading whitespace. */
  lemma TrimResult(s: string)
    ensures IsTrimmed(Trim(s))
    ensures LeadingSpaces(s) + |Trim(s)| <= |s|
    ensures Trim(s) == s[LeadingSpaces(s)..LeadingSpaces(s) + |Trim(s)|]
  {
    var t := TrimStart(s);
    var r := TrimEnd(t);
    TrimStartSpec(s);
    TrimEndSpec(t);
    assert r == [] || !IsSpace(r[0]) by {
      if r != [] { assert r[0] == t[0]; }
    }
  }

  /** Trimming changes a string exactly when it starts or ends with whitespace. */
  lemma TrimFixedPoint(s: string)
    ensures Trim(s) == s <==> IsTrimmed(s)
  {
    TrimResult(s);
    if IsTrimmed(s) && s != [] {
      assert TrimStart(s) == s;
    }
  }

  /** Trimming is idempotent. */
  lemma TrimIdempotent(s: string)
    ensures Trim(Trim(s)) == Trim(s)
  {
    TrimResult(s);
    TrimFixedPoint(Trim(s));
  }

  /** A leading space does not survive trim. */
  lemma TrimLeadingSpace(c: char, s: string)
    requires IsSpace(c)
    ensures Trim([c] + s) == Trim(s)
  {
    assert ([c] + s)[1..] == s;
  }

  // ---------------------------------------------------------------------------
  // Case mapping (ASCII letters only)

  predicate IsUpperAscii(c: char) { 'A' <= c <= 'Z' }

  predicate IsLowerAscii(c: char) { 'a' <= c <= 'z' }

  function LowerChar(c: char): char
  {
    if IsUpperAscii(c) then (c as int + 32) as char else c
  }

  function UpperChar(c: char): char
  {
    if IsLowerAscii(c) then (c as int - 32) as char else c
  }

  /** `s.toLowerCase()` on ASCII letters: same length, each upper-case letter mapped to its lower-case one. */
  function Lower(s: string): (r: string)
    ensures |r| == |s|
    ensures forall i :: 0 <= i < |s| ==> r[i] == LowerChar(s[i])
  {
    seq(|s|, i requires 0 <= i < |s| => LowerChar(s[i]))
  }

  /** `s.toUpperCase()` on ASCII letters. */
  function Upper(s: string): (r: string)
    ensures |r| == |s|
    ensures forall i :: 0 <= i < |s| ==> r[i] == UpperChar(s[i])
  {
    seq(|s|, i requires 0 <= i < |s| => UpperChar(s[i]))
  }

  /** Lower-casing leaves no upper-case ASCII letter and is idempotent. */
  lemma LowerIsLower(s: string)
    ensures forall i :: 0 <= i < |s| ==> !IsUpperAscii(Lower(s)[i])
    ensures Lower(Lower(s)) == Lower(s)
  {
  }

  // ---------------------------------------------------------------------------
  // Substring search

  predicate StartsWith(s: string, p: string) {
    |p| <= |s| && s[..|p|] == p
  }

  /** `s.includes(sub)`. */
  predicate Contains(s: string, sub: string)
    decreases |s|
  {
    StartsWith(s, sub) || (s != [] && Contains(s[1..], sub))
  }

  /** `sub` occurs in `s` starting at index `i`. */
  predicate OccursAt(s: string, sub: string, i: int) {
    0 <= i <= |s| - |sub| && s[i..i + |sub|] == sub
  }

  /** `includes` holds exactly when `sub` occurs at some position of `s`. */
  lemma {:induction false} ContainsIff(s: string, sub: string)
    ensures Contains(s, sub) <==> exists i :: OccursAt(s, sub, i)
    decreases |s|
  {
    assert StartsWith(s, sub) <==> OccursAt(s, sub, 0);
    if s != [] {
      ContainsIff(s[1..], sub);
      if Contains(s[1..], sub) {
        var i :| OccursAt(s[1..], sub, i);
        assert s[1..][i..i + |sub|] == s[i + 1..i + 1 + |sub|];
        assert OccursAt(s, sub, i + 1);
      }
      if i :| OccursAt(s, sub, i) && i > 0 {
        assert s[1..][i - 1..i - 1 + |sub|] == s[i..i + |sub|];
        assert OccursAt(s[1..], sub, i - 1);
      }
    } else {
      if i :| OccursAt(s, sub, i) {
        assert i == 0;
      }
    }
  }

  // ---------------------------------------------------------------------------
  // split / join

  /** `s.split(d)` for a one-character separator: the pieces between separators, at least one. */
  function Split(s: string, d: char): (r: seq<string>)
    ensures |r| >= 1
    ensures forall k :: 0 <= k < |r| ==> d !in r[k]
    decreases |s|
  {
    if s == [] then [""]
    else
      var rest := Split(s[1..], d);
      if s[0] == d then [""] + rest
      else [[s[0]] + rest[0]] + rest[1..]
  }

  /** `xs.join(sep)`. */
  function Join(xs: seq<string>, sep: string): string
    decreases |xs|
  {
    if |xs| == 0 then ""
    else if |xs| == 1 then xs[0]
    else xs[0] + sep + Join(xs[1..], sep)
  }

  /** Joining a first element onto the rest. */
  lemma JoinCons(x: string, xs: seq<string>, sep: string)
    requires |xs| >= 1
    ensures Join([x] + xs, sep) == x + sep + Join(xs, sep)
  {
    assert ([x] + xs)[1..] == xs;
  }

  /** Prefixing a character to the first piece of a join. */
  lemma {:induction false} JoinPrefixFirst(c: char, xs: seq<string>, sep: string)
    requires |xs| >= 1
    ensures Join([[c] + xs[0]] + xs[1..], sep) == [c] + Join(xs, sep)
  {
    if |xs| > 1 {
      JoinCons([c] + xs[0], xs[1..], sep);
    }
  }

  /** Joining the pieces of a split with the separator gives back the original text. */
  lemma {:induction false} SplitJoin(s: string, d: char)
    ensures Join(Split(s, d), [d]) == s
    decreases |s|
  {
    if s != [] {
      var rest := Split(s[1..], d);
      SplitJoin(s[1..], d);
      if s[0] == d {
        JoinCons("", rest, [d]);
      } else {
        JoinPrefixFirst(s[0], rest, [d]);
      }
    }
  }

  /** A text without the separator splits into itself. */
  lemma {:induction false} SplitNoSeparator(s: string, d: char)
    requires d !in s
    ensures Split(s, d) == [s]
    decreases |s|
  {
    if s != [] {
      SplitNoSeparator(s[1..], d);
      assert s[0] != d;
      assert [s[0]] + s[1..] == s;
    }
  }

  /** The first separator ends the first piece. */
  lemma {:induction false} SplitAtSeparator(a: string, d: char, b: string)
    requires d !in a
    ensures Split(a + [d] + b, d) == [a] + Split(b, d)
    decreases |a|
  {
    if a == [] {
      assert a + [d] + b == [d] + b;
      assert ([d] + b)[1..] == b;
    } else {
      assert (a + [d] + b)[1..] == a[1..] + [d] + b;
      SplitAtSeparator(a[1..], d, b);
      assert [a[0]] + a[1..] == a;
    }
  }

  /** Splitting a join of separator-free pieces gives back the pieces. */
  lemma {:induction false} JoinSplit(xs: seq<string>, d: char)
    requires |xs| >= 1
    requires forall k :: 0 <= k < |xs| ==> d !in xs[k]
    ensures Split(Join(xs, [d]), d) == xs
    decreases |xs|
  {
    if |xs| == 1 {
      SplitNoSeparator(xs[0], d);
    } else {
      JoinSplit(xs[1..], d);
      SplitAtSeparator(xs[0], d, Join(xs[1..], [d]));
    }
  }

  // ---------------------------------------------------------------------------
  // The comma-list convention of specialisations

  predicate NonEmpty(s: string) { s != "" }

  /** `text.split(',').map((s) => s.trim()).filter(Boolean)`. */
  function SplitList(text: string): seq<string>
  {
    Filter(NonEmpty, MapSeq(Trim, Split(text, ',')))
  }

  /** A list item that survives `join(', ')` followed by `SplitList` unchanged. */
  predicate IsListItem(x: string) {
    x != "" && IsTrimmed(x) && ',' !in x
  }

  /** Splitting text that starts with a non-separator character extends the first piece. */
  lemma SplitConsOther(c: char, t: string, d: char)
    requires c != d
    ensures Split([c] + t, d) == [[c] + Split(t, d)[0]] + Split(t, d)[1..]
  {
    assert ([c] + t)[1..] == t;
  }

  /** Trimming each piece of the comma-split of a `', '`-join recovers the items. */
  lemma {:induction false} TrimmedPiecesOfJoin(xs: seq<string>)
    requires |xs| >= 1
    requires forall k :: 0 <= k < |xs| ==> IsListItem(xs[k])
    ensures MapSeq(Trim, Split(Join(xs, ", "), ',')) == xs
    decreases |xs|
  {
    TrimFixedPoint(xs[0]);
    if |xs| == 1 {
      SplitNoSeparator(xs[0], ',');
      assert MapSeq(Trim, [xs[0]]) == [Trim(xs[0])];
    } else {
      var tail := Join(xs[1..], ", ");
      var p := Split(tail, ',');
      TrimmedPiecesOfJoin(xs[1..]);
      assert Join(xs, ", ") == xs[0] + [','] + ([' '] + tail);
      SplitAtSeparator(xs[0], ',', [' '] + tail);
      SplitConsOther(' ', tail, ',');
      var q := [[' '] + p[0]] + p[1..];
      TrimLeadingSpace(' ', p[0]);
      MapSeqCons(Trim, [' '] + p[0], p[1..]);
      MapSeqCons(Trim, p[0], p[1..]);
      assert [p[0]] + p[1..] == p;
      MapSeqCons(Trim, xs[0], q);
    }
  }

  /** The specialisation round trip: `SplitList(xs.join(', ')) == xs` for trimmed, non-empty, comma-free items. */
  lemma SplitListOfJoin(xs: seq<string>)
    requires forall k :: 0 <= k < |xs| ==> IsListItem(xs[k])
    ensures SplitList(Join(xs, ", ")) == xs
  {
    if xs == [] {
      assert Split("", ',') == [""];
      assert MapSeq(Trim, [""]) == [""];
      FilterSingle(NonEmpty, "");
    } else {
      TrimmedPiecesOfJoin(xs);
      FilterKeepsAll(NonEmpty, xs);
    }
  }

  /** Trimming cannot introduce a character the text does not contain. */
  lemma TrimKeepsOut(s: string, c: char)
    requires c !in s
    ensures c !in Trim(s)
  {
    TrimResult(s);
    var a := LeadingSpaces(s);
    forall k | 0 <= k < |Trim(s)| ensures Trim(s)[k] != c {
      assert Trim(s)[k] == s[a + k];
    }
  }

  /** A comma-free piece that does not trim to nothing trims to a list item. */
  lemma TrimmedPieceIsItem(p: string)
    requires ',' !in p && Trim(p) != ""
    ensures IsListItem(Trim(p))
  {
    TrimResult(p);
    TrimKeepsOut(p, ',');
  }

  /** Every piece `SplitList` returns is a non-empty, trimmed, comma-free list item. */
  lemma SplitListItems(text: string)
    ensures forall k :: 0 <= k < |SplitList(text)| ==> IsListItem(SplitList(text)[k])
  {
    var pieces := Split(text, ',');
    var trimmed := MapSeq(Trim, pieces);
    var r := Filter(NonEmpty, trimmed);
    forall k | 0 <= k < |r| ensures IsListItem(r[k]) {
      FilterElement(NonEmpty, trimmed, k);
      var j :| 0 <= j < |trimmed| && trimmed[j] == r[k];
      TrimmedPieceIsItem(pieces[j]);
    }
  }

  /** Splitting is a normal form: joining a split list with `', '` and splitting again changes nothing. */
  lemma SplitListNormalises(text: string)
    ensures SplitList(Join(SplitList(text), ", ")) == SplitList(text)
  {
    SplitListItems(text);
    SplitListOfJoin(SplitList(text));
  }

  // ---------------------------------------------------------------------------
  // parseInt (no radix) and String(n)

  predicate IsDigit(c: char) { '0' <= c <= '9' }

  function DigitValue(c: char): nat
    requires IsDigit(c)
  {
    c as int - '0' as int
  }

  function DigitChar(n: nat): char
    requires n < 10
  {
    ('0' as int + n) as char
  }

  predicate AllDigits(s: string) {
    forall k :: 0 <= k < |s| ==> IsDigit(s[k])
  }

  /** The longest prefix of digits. */
  function DigitPrefix(s: string): (r: string)
    ensures |r| <= |s| && r == s[..|r|] && AllDigits(r)
    ensures |r| < |s| ==> !IsDigit(s[|r|])
    decreases |s|
  {
    if s != [] && IsDigit(s[0]) then [s[0]] + DigitPrefix(s[1..]) else ""
  }

  /** The number a string of decimal digits denotes. */
  function DigitsValue(ds: string): nat
    requires AllDigits(ds)
    decreases |ds|
  {
    if ds == [] then 0 else DigitsValue(ds[..|ds| - 1]) * 10 + DigitValue(ds[|ds| - 1])
  }

  /** What follows the leading whitespace and an optional sign. */
  function Unsigned(s: string): string
  {
    var t := TrimStart(s);
    if t != [] && (t[0] == '-' || t[0] == '+') then t[1..] else t
  }

  predicate IsHexDigit(c: char) { IsDigit(c) || 'a' <= c <= 'f' || 'A' <= c <= 'F' }

  function HexDigitValue(c: char): (v: nat)
    requires IsHexDigit(c)
    ensures v < 16
    ensures IsDigit(c) ==> v == DigitValue(c)
  {
    if IsDigit(c) then DigitValue(c)
    else if 'a' <= c <= 'f' then c as int - 'a' as int + 10
    else c as int - 'A' as int + 10
  }

  predicate AllHexDigits(s: string) {
    forall k :: 0 <= k < |s| ==> IsHexDigit(s[k])
  }

  /** The longest prefix of hexadecimal digits. */
  function HexPrefix(s: string): (r: string)
    ensures |r| <= |s| && r == s[..|r|] && AllHexDigits(r)
    ensures |r| < |s| ==> !IsHexDigit(s[|r|])
    decreases |s|
  {
    if s != [] && IsHexDigit(s[0]) then [s[0]] + HexPrefix(s[1..]) else ""
  }

  /** The number a string of hexadecimal digits denotes. */
  function HexValue(ds: string): nat
    requires AllHexDigits(ds)
    decreases |ds|
  {
    if ds == [] then 0 else HexValue(ds[..|ds| - 1]) * 16 + HexDigitValue(ds[|ds| - 1])
  }

  /** Without a radix, `parseInt` reads a `0x` or `0X` after the sign as the start of a hexadecimal number. */
  predicate HasHexPrefix(u: string) {
    |u| >= 2 && u[0] == '0' && (u[1] == 'x' || u[1] == 'X')
  }

  /** The unsigned number at the start of `u`, hexadecimal after `0x`, decimal otherwise; `None` when no digit follows. */
  function Magnitude(u: string): (r: Option<nat>)
    ensures r.Some? <==> if HasHexPrefix(u) then |u| > 2 && IsHexDigit(u[2]) else u != [] && IsDigit(u[0])
  {
    if HasHexPrefix(u) then
      var hs := HexPrefix(u[2..]);
      if hs == [] then None else Some(HexValue(hs))
    else
      var ds := DigitPrefix(u);
      if ds == [] then None else Some(DigitsValue(ds))
  }

  /**
   * `parseInt(s)` without a radix: leading whitespace, an optional sign, then
   * either `0x` and hexadecimal digits or decimal digits, read up to the first
   * character that is not one; `None` stands for `NaN`.
   */
  function ParseInt(s: string): (r: Option<int>)
    ensures r.Some? <==> Magnitude(Unsigned(s)).Some?
    ensures r.Some? && TrimStart(s)[0] == '-' ==> r.value == -(Magnitude(Unsigned(s)).value as int)
    ensures r.Some? && TrimStart(s)[0] != '-' ==> r.value == Magnitude(Unsigned(s)).value
  {
    var t := TrimStart(s);
    match Magnitude(Unsigned(s))
    case None => None
    case Some(m) => if t[0] == '-' then Some(-(m as int)) else Some(m as int)
  }

  /** Hexadecimal input: `parseInt("0x1A")` is 26. */
  lemma ParseIntHex()
    ensures ParseInt("0x1A") == Some(26)
  {
    assert Unsigned("0x1A") == "0x1A" && HasHexPrefix("0x1A");
    assert "0x1A"[2..] == "1A";
    assert HexPrefix("1A") == "1A" by {
      assert "1A"[1..] == "A" && "A"[1..] == "";
    }
    assert HexValue("1A") == 26 by {
      assert "1A"[..1] == "1" && "1"[..0] == "";
    }
  }

  /** A sign before the prefix applies to the hexadecimal number: `parseInt(" -0X1a")` is -26. */
  lemma ParseIntNegativeHex()
    ensures ParseInt(" -0X1a") == Some(-26)
  {
    assert TrimStart(" -0X1a") == "-0X1a";
    assert Unsigned(" -0X1a") == "0X1a";
    assert HasHexPrefix("0X1a") && "0X1a"[2..] == "1a";
    assert HexPrefix("1a") == "1a" by {
      assert "1a"[1..] == "a" && "a"[1..] == "";
    }
    assert HexValue("1a") == 26 by {
      assert "1a"[..1] == "1" && "1"[..0] == "";
    }
  }

  /** A prefix with no digit after it is `NaN`: `parseInt("0x")`. */
  lemma ParseIntBareHexPrefix()
    ensures ParseInt("0x") == None
  {
    assert Unsigned("0x") == "0x";
  }

  /** `String(n)` for a natural number. */
  function NatToString(n: nat): (r: string)
    ensures r != [] && AllDigits(r)
    decreases n
  {
    if n < 10 then [DigitChar(n)] else NatToString(n / 10) + [DigitChar(n % 10)]
  }

  /** `String(n)` for an integer. */
  function IntToString(n: int): string
  {
    if n < 0 then "-" + NatToString(-n) else NatToString(n)
  }

  lemma {:induction false} NatToStringValue(n: nat)
    ensures DigitsValue(NatToString(n)) == n
    decreases n
  {
    if n >= 10 {
      NatToStringValue(n / 10);
      var s := NatToString(n);
      assert s[..|s| - 1] == NatToString(n / 10);
    }
  }

  lemma {:induction false} DigitPrefixOfDigits(s: string)
    requires AllDigits(s)
    ensures DigitPrefix(s) == s
    decreases |s|
  {
    if s != [] {
      DigitPrefixOfDigits(s[1..]);
    }
  }

  /** `parseInt(String(n)) == n` for every integer. */
  lemma ParseIntOfIntToString(n: int)
    ensures ParseInt(IntToString(n)) == Some(n)
  {
    var s := IntToString(n);
    var m: nat := if n < 0 then -n else n;
    var ds := NatToString(m);
    assert TrimStart(s) == s;
    assert Unsigned(s) == ds by {
      if n < 0 { assert s[1..] == ds; }
    }
    assert !HasHexPrefix(ds);
    DigitPrefixOfDigits(ds);
    NatToStringValue(m);
  }
}
