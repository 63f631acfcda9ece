/** The handful of Go standard-library primitives the SDP parsers are built from:
    fixed-width unsigned integers, `strconv.ParseUint(s, 10, bits)`,
    decimal rendering (`%d`), `strings.Index` for one character,
    `strings.Split` on a one-character separator, `strings.HasPrefix` and
    `strings.TrimSpace` (ASCII white space).

    Go strings are byte strings; every separator the core uses is a single
    ASCII character, so modelling strings as `seq<char>` and cutting at
    character positions gives the same pieces. */
module Primitives {
  import opened Errors

  newtype uint8 = x: int | 0 <= x < 0x100
  newtype uint16 = x: int | 0 <= x < 0x1_0000
  newtype uint32 = x: int | 0 <= x < 0x1_0000_0000

  /** The bit sizes the core passes to `strconv.ParseUint`, and the first value
      that no longer fits in each. */
  datatype BitSize = Bits8 | Bits16 | Bits32

  function Limit(bits: BitSize): nat {
    match bits
    case Bits8 => 0x100
    case Bits16 => 0x1_0000
    case Bits32 => 0x1_0000_0000
  }

  // ---------------------------------------------------------------------------
  // Decimal digits

  predicate IsDigit(c: char) {
    '0' <= c <= '9'
  }

  /** Every character is a decimal digit (stated from the last character back,
      as DecimalValue reads the digits). */
  predicate AllDigits(s: string) {
    s == [] || (AllDigits(s[..|s| - 1]) && IsDigit(s[|s| - 1]))
  }

  lemma {:induction false} AllDigitsAt(s: string, i: int)
    requires AllDigits(s) && 0 <= i < |s|
    ensures IsDigit(s[i])
  {
    if i < |s| - 1 {
      AllDigitsAt(s[..|s| - 1], i);
    }
  }

  function DigitChar(d: nat): (c: char)
    requires d < 10
    ensures IsDigit(c)
  {
    ('0' as int + d) as char
  }

  /** The value of a run of decimal digits, most significant first. */
  function DecimalValue(s: string): nat
    requires AllDigits(s)
  {
    if s == [] then 0
    else DecimalValue(s[..|s| - 1]) * 10 + ((s[|s| - 1] as int) - ('0' as int))
  }

  /** `strconv.ParseUint(s, 10, bits)`: a non-empty run of decimal digits, with
      no sign and no base prefix, whose value fits in `bits` bits. */
  function ParseUint(s: string, bits: BitSize): (r: Option<nat>)
    ensures r.Some? ==> |s| > 0 && AllDigits(s) && r.value < Limit(bits)
    ensures r.None? <==> s == [] || !AllDigits(s) || DecimalValue(s) >= Limit(bits)
  {
    if |s| > 0 && AllDigits(s) && DecimalValue(s) < Limit(bits) then Some(DecimalValue(s)) else None
  }

  /** Decimal rendering of an unsigned value, as `%d` and `strconv.FormatUint` give it. */
  function FormatUint(n: nat): (s: string)
    ensures |s| > 0 && AllDigits(s)
    ensures n > 0 ==> s[0] != '0'
  {
    if n < 10 then
      assert [DigitChar(n)][..0] == [];
      [DigitChar(n)]
    else
      var s := FormatUint(n / 10) + [DigitChar(n % 10)];
      assert s[..|s| - 1] == FormatUint(n / 10);
      s
  }

  lemma {:induction false} DecimalValueOfFormatUint(n: nat)
    ensures DecimalValue(FormatUint(n)) == n
  {
    if n >= 10 {
      DecimalValueOfFormatUint(n / 10);
      var s := FormatUint(n);
      assert s[..|s| - 1] == FormatUint(n / 10);
    }
  }

  /** A leading '0' before a non-empty text changes neither whether it is all
      digits nor its value. */
  lemma {:induction false} LeadingZeroValue(s: string)
    requires s != []
    ensures AllDigits("0" + s) == AllDigits(s)
    ensures AllDigits(s) ==> DecimalValue("0" + s) == DecimalValue(s)
    decreases |s|
  {
    var t := "0" + s;
    assert t[..|t| - 1] == "0" + s[..|s| - 1];
    assert t[|t| - 1] == s[|s| - 1];
    if |s| == 1 {
      assert s[..0] == [];
      assert "0"[..0] == [];
    } else {
      LeadingZeroValue(s[..|s| - 1]);
    }
  }

  /** `strconv.ParseUint` accepts leading zeros: "096" reads as 96. */
  lemma ParseUintLeadingZero(s: string, bits: BitSize)
    requires s != []
    ensures ParseUint("0" + s, bits) == ParseUint(s, bits)
  {
    LeadingZeroValue(s);
  }

  /** Rendering a value and parsing it back with a width it fits in gives the value. */
  lemma ParseFormatUint(n: nat, bits: BitSize)
    requires n < Limit(bits)
    ensures ParseUint(FormatUint(n), bits) == Some(n)
  {
    DecimalValueOfFormatUint(n);
  }

  // ---------------------------------------------------------------------------
  // strings.Index, strings.Split, strings.HasPrefix

  /** `strings.Index(s, string(c))`: the first position of `c`, or -1. */
  function IndexOf(s: string, c: char): (r: int)
    ensures -1 <= r < |s|
    ensures r == -1 <==> c !in s
    ensures r >= 0 ==> s[r] == c && c !in s[..r]
  {
    if s == [] then -1
    else if s[0] == c then 0
    else
      var k := IndexOf(s[1..], c);
      assert k >= 0 ==> s[1..][..k] == s[..k + 1][1..];
      if k < 0 then -1 else k + 1
  }

  /** `strings.Split(s, string(sep))`: the pieces between separators. It always
      yields at least one piece; "" yields [""]. */
  function Split(s: string, sep: char): (parts: seq<string>)
    ensures |parts| >= 1
    ensures forall i | 0 <= i < |parts| :: sep !in parts[i]
    decreases |s|
  {
    var k := IndexOf(s, sep);
    if k < 0 then [s] else [s[..k]] + Split(s[k + 1..], sep)
  }

  /** `strings.Join(parts, string(sep))`, the inverse of Split. */
  function Join(parts: seq<string>, sep: char): string
    requires |parts| >= 1
  {
    if |parts| == 1 then parts[0] else parts[0] + [sep] + Join(parts[1..], sep)
  }

  lemma {:induction false} JoinSplit(s: string, sep: char)
    ensures Join(Split(s, sep), sep) == s
    decreases |s|
  {
    var k := IndexOf(s, sep);
    if k >= 0 {
      JoinSplit(s[k + 1..], sep);
      JoinCons(s[..k], Split(s[k + 1..], sep), sep);
      Rejoin(s, k);
    }
  }

  lemma JoinCons(head: string, rest: seq<string>, sep: char)
    requires |rest| >= 1
    ensures Join([head] + rest, sep) == head + [sep] + Join(rest, sep)
  {
    assert ([head] + rest)[1..] == rest;
  }

  lemma Rejoin<T>(s: seq<T>, k: int)
    requires 0 <= k < |s|
    ensures s == s[..k] + [s[k]] + s[k + 1..]
  {
  }

  lemma SplitNoSeparator(s: string, sep: char)
    requires sep !in s
    ensures Split(s, sep) == [s]
  {
  }

  /** In `a + [c] + b` with no `c` in `a`, the first `c` is the one after `a`. */
  lemma IndexOfAfter(a: string, c: char, b: string)
    requires c !in a
    ensures IndexOf(a + [c] + b, c) == |a|
    ensures (a + [c] + b)[..|a|] == a && (a + [c] + b)[|a| + 1..] == b
  {
    var s := a + [c] + b;
    assert s[..|a|] == a;
    assert s[|a|] == c;
  }

  /** Cutting `s` at its first `c` gives the parts around it. */
  lemma CutAt(pre: string, c: char, post: string, s: string)
    requires c !in pre && s == pre + [c] + post
    ensures IndexOf(s, c) == |pre| && s[..|pre|] == pre && s[|pre| + 1..] == post
  {
    IndexOfAfter(pre, c, post);
  }

  // Regrouping a concatenation, stated apart so that callers need no
  // sequence extensionality of their own.

  lemma Regroup3<T>(a: seq<T>, b: seq<T>, c: seq<T>)
    ensures a + b + c == a + (b + c)
  {
  }

  lemma Regroup5<T>(a: seq<T>, b: seq<T>, c: seq<T>, d: seq<T>, e: seq<T>)
    ensures a + b + c + d + e == a + b + (c + d + e)
  {
  }

  lemma Regroup7<T>(a: seq<T>, b: seq<T>, c: seq<T>, d: seq<T>, e: seq<T>, f: seq<T>, g: seq<T>)
    ensures a + b + c + d + e + f + g == a + b + (c + d + e + f + g)
  {
  }

  lemma SplitAtSeparator(a: string, sep: char, b: string)
    requires sep !in a
    ensures Split(a + [sep] + b, sep) == [a] + Split(b, sep)
  {
    IndexOfAfter(a, sep, b);
  }

  /** Joining two lists of pieces is joining their joins. */
  lemma {:induction false} JoinAppend(ps: seq<string>, qs: seq<string>, sep: char)
    requires |ps| >= 1 && |qs| >= 1
    ensures Join(ps + qs, sep) == Join(ps, sep) + [sep] + Join(qs, sep)
    decreases |ps|
  {
    if |ps| == 1 {
      JoinCons(ps[0], qs, sep);
      assert ps + qs == [ps[0]] + qs;
    } else {
      JoinAppend(ps[1..], qs, sep);
      assert (ps + qs)[1..] == ps[1..] + qs;
      assert Join(ps + qs, sep) == ps[0] + [sep] + (Join(ps[1..], sep) + [sep] + Join(qs, sep));
    }
  }

  /** Splitting the join of separator-free pieces gives the pieces back. */
  lemma {:induction false} SplitJoin(ps: seq<string>, sep: char)
    requires |ps| >= 1 && forall i | 0 <= i < |ps| :: sep !in ps[i]
    ensures Split(Join(ps, sep), sep) == ps
    decreases |ps|
  {
    if |ps| == 1 {
      assert IndexOf(ps[0], sep) == -1;
    } else {
      SplitJoin(ps[1..], sep);
      SplitAtSeparator(ps[0], sep, Join(ps[1..], sep));
    }
  }

  /** Splitting at a separator placed between two texts splits each text on its own. */
  lemma SplitConcat(a: string, b: string, sep: char)
    ensures Split(a + [sep] + b, sep) == Split(a, sep) + Split(b, sep)
  {
    var ps, qs := Split(a, sep), Split(b, sep);
    JoinSplit(a, sep);
    JoinSplit(b, sep);
    JoinAppend(ps, qs, sep);
    SplitJoin(ps + qs, sep);
  }

  lemma SplitTwo(a: string, b: string, sep: char)
    requires sep !in a && sep !in b
    ensures Split(a + [sep] + b, sep) == [a, b]
  {
    SplitAtSeparator(a, sep, b);
    SplitNoSeparator(b, sep);
  }

  lemma SplitThree(a: string, b: string, c: string, sep: char)
    requires sep !in a && sep !in b && sep !in c
    ensures Split(a + [sep] + b + [sep] + c, sep) == [a, b, c]
  {
    Regroup5(a, [sep], b, [sep], c);
    SplitAtSeparator(a, sep, b + [sep] + c);
    SplitTwo(b, c, sep);
  }

  /** A decimal rendering holds none of the separators the SDP grammars use. */
  lemma FormatUintHasNoSeparator(n: nat)
    ensures ' ' !in FormatUint(n) && '/' !in FormatUint(n) && ':' !in FormatUint(n)
    ensures ';' !in FormatUint(n) && '=' !in FormatUint(n)
  {
    var s := FormatUint(n);
    forall i | 0 <= i < |s| ensures s[i] != ' ' && s[i] != '/' && s[i] != ':' && s[i] != ';' && s[i] != '=' {
      AllDigitsAt(s, i);
    }
  }

  /** The first piece is where the string starts; with a second piece, the
      separator and that piece follow it. */
  lemma {:induction false} SplitHead(s: string, sep: char)
    ensures Split(s, sep)[0] <= s
    ensures |Split(s, sep)| == 1 ==> Split(s, sep)[0] == s
    ensures |Split(s, sep)| >= 2 ==> Split(s, sep)[0] + [sep] + Split(s, sep)[1] <= s
    decreases |s|
  {
    var k := IndexOf(s, sep);
    if k >= 0 {
      var rest := s[k + 1..];
      SplitHead(rest, sep);
      assert Split(s, sep) == [s[..k]] + Split(rest, sep);
      var p := Split(rest, sep)[0];
      assert Split(s, sep)[1] == p;
      assert p == rest[..|p|];
      assert s[..k] + [sep] + p == s[..k + 1 + |p|];
    }
  }

  /** A string splits into at least two pieces exactly when it holds the separator. */
  lemma SplitMoreThanOne(s: string, sep: char)
    ensures |Split(s, sep)| >= 2 <==> sep in s
  {
  }

  predicate HasPrefix(s: string, prefix: string) {
    prefix <= s
  }

  // ---------------------------------------------------------------------------
  // strings.TrimSpace, for ASCII white space

  /** ASCII white space: tab, line feed, vertical tab, form feed, carriage return, space. */
  predicate IsSpace(c: char) {
    c == ' ' || 9 <= c as int <= 13
  }

  predicate AllSpace(s: string) {
    forall i | 0 <= i < |s| :: IsSpace(s[i])
  }

  /** The number of white-space characters `s` starts with. */
  function LeadingSpaces(s: string): (n: nat)
    ensures n <= |s|
  {
    if s != [] && IsSpace(s[0]) then 1 + LeadingSpaces(s[1..]) else 0
  }

  /** The number of white-space characters `s` ends with. */
  function TrailingSpaces(s: string): (n: nat)
    ensures n <= |s|
  {
    if s != [] && IsSpace(s[|s| - 1]) then 1 + TrailingSpaces(s[..|s| - 1]) else 0
  }

  /** `strings.TrimSpace`: drops the leading and trailing white space. */
  function TrimSpace(s: string): string {
    var l := s[LeadingSpaces(s)..];
    l[..|l| - TrailingSpaces(l)]
  }

  lemma {:induction false} LeadingSpacesAll(s: string)
    ensures AllSpace(s[..LeadingSpaces(s)])
    ensures LeadingSpaces(s) < |s| ==> !IsSpace(s[LeadingSpaces(s)])
    decreases |s|
  {
    if s != [] && IsSpace(s[0]) {
      LeadingSpacesAll(s[1..]);
      assert s[..LeadingSpaces(s)] == [s[0]] + s[1..][..LeadingSpaces(s[1..])];
    }
  }

  lemma TrailingSpacesAll(s: string)
    ensures AllSpace(s[|s| - TrailingSpaces(s)..])
    ensures TrailingSpaces(s) < |s| ==> !IsSpace(s[|s| - 1 - TrailingSpaces(s)])
  {
    TrailingSpacesSpace(s);
    TrailingSpacesStop(s);
  }

  lemma {:induction false} TrailingSpacesSpace(s: string)
    ensures AllSpace(s[|s| - TrailingSpaces(s)..])
    decreases |s|
  {
    if s != [] && IsSpace(s[|s| - 1]) {
      var init := s[..|s| - 1];
      var t := TrailingSpaces(init);
      assert TrailingSpaces(s) == t + 1;
      TrailingSpacesSpace(init);
      LastSlice(s, t);
      AllSpaceSnoc(init[|init| - t..], s[|s| - 1]);
    }
  }

  lemma {:induction false} TrailingSpacesStop(s: string)
    ensures TrailingSpaces(s) < |s| ==> !IsSpace(s[|s| - 1 - TrailingSpaces(s)])
    decreases |s|
  {
    if s != [] && IsSpace(s[|s| - 1]) {
      var init := s[..|s| - 1];
      var t := TrailingSpaces(init);
      assert TrailingSpaces(s) == t + 1;
      TrailingSpacesStop(init);
      if t + 1 < |s| {
        assert s[|s| - 1 - (t + 1)] == init[|init| - 1 - t];
      }
    }
  }

  lemma AllSpaceSnoc(u: string, c: char)
    requires AllSpace(u) && IsSpace(c)
    ensures AllSpace(u + [c])
  {
    forall i | 0 <= i < |u| + 1
      ensures IsSpace((u + [c])[i])
    {
      if i < |u| {
        assert (u + [c])[i] == u[i];
      }
    }
  }

  /** Cutting the last element off before taking a suffix. */
  lemma LastSlice<T>(s: seq<T>, k: int)
    requires 0 <= k < |s|
    ensures s[|s| - (k + 1)..] == s[..|s| - 1][|s| - 1 - k..] + [s[|s| - 1]]
  {
  }

  /** What TrimSpace leaves: `s` is white space, the result, then white space,
      and the result neither starts nor ends with white space. */
  lemma TrimSpaceParts(s: string)
    ensures var r := TrimSpace(s); var a := LeadingSpaces(s);
      && a + |r| <= |s|
      && s == s[..a] + r + s[a + |r|..]
      && AllSpace(s[..a]) && AllSpace(s[a + |r|..])
      && (r == [] || (!IsSpace(r[0]) && !IsSpace(r[|r| - 1])))
  {
    var a := LeadingSpaces(s);
    var r := TrimSpace(s);
    TrimSpaceSlice(s);
    LeadingSpacesAll(s);
    TrailingSpacesAll(s[a..]);
    Split3(s, a, a + |r|);
    TrimSpaceEnds(s);
  }

  /** Where the result of TrimSpace sits in `s`. */
  lemma TrimSpaceSlice(s: string)
    ensures var r := TrimSpace(s); var a := LeadingSpaces(s); var l := s[a..];
      && a + |r| <= |s| && r == s[a..a + |r|]
      && s[a + |r|..] == l[|l| - TrailingSpaces(l)..]
  {
    var a := LeadingSpaces(s);
    var l := s[a..];
    var n := |l| - TrailingSpaces(l);
    var r := TrimSpace(s);
    assert r == l[..n];
    SliceOfSlice(s, a, n);
    assert |r| == n;
    assert r == s[a..a + n];
    assert s[a + n..] == l[n..];
  }

  lemma SliceOfSlice<T>(s: seq<T>, a: int, n: int)
    requires 0 <= a <= |s| && 0 <= n <= |s| - a
    ensures s[a..][..n] == s[a..a + n] && s[a..][n..] == s[a + n..]
  {
  }

  lemma TrimSpaceEnds(s: string)
    ensures var r := TrimSpace(s); r == [] || (!IsSpace(r[0]) && !IsSpace(r[|r| - 1]))
  {
    var a := LeadingSpaces(s);
    var l := s[a..];
    var t := TrailingSpaces(l);
    var r := TrimSpace(s);
    LeadingSpacesAll(s);
    TrailingSpacesAll(l);
    if r != [] {
      assert r[0] == l[0] == s[a];
      assert r[|r| - 1] == l[|l| - 1 - t];
    }
  }

  lemma Split3<T>(s: seq<T>, i: int, j: int)
    requires 0 <= i <= j <= |s|
    ensures s == s[..i] + s[i..j] + s[j..]
  {
  }

  /** The result is empty exactly when the string is all white space. */
  lemma TrimSpaceEmpty(s: string)
    ensures |TrimSpace(s)| == 0 <==> AllSpace(s)
  {
    TrimSpaceParts(s);
    LeadingSpacesAll(s);
    var a := LeadingSpaces(s);
    if |TrimSpace(s)| == 0 {
      assert a == |s|;
      forall i | 0 <= i < |s| ensures IsSpace(s[i]) {
        assert s[i] == s[..a][i];
      }
    }
  }

  lemma TrimSpaceUnpadded(s: string)
    requires s == [] || (!IsSpace(s[0]) && !IsSpace(s[|s| - 1]))
    ensures TrimSpace(s) == s
  {
  }

  lemma {:induction false} LeadingSpacesPad(pad: string, s: string)
    requires AllSpace(pad)
    ensures LeadingSpaces(pad + s) == |pad| + LeadingSpaces(s)
    decreases |pad|
  {
    if pad != [] {
      assert (pad + s)[0] == pad[0];
      assert (pad + s)[1..] == pad[1..] + s;
      LeadingSpacesPad(pad[1..], s);
    } else {
      assert pad + s == s;
    }
  }

  /** White space in front of a string is trimmed away with the rest. */
  lemma TrimLeadingSpace(pad: string, s: string)
    requires AllSpace(pad)
    ensures TrimSpace(pad + s) == TrimSpace(s)
  {
    LeadingSpacesPad(pad, s);
    assert (pad + s)[|pad| + LeadingSpaces(s)..] == s[LeadingSpaces(s)..];
  }
}
