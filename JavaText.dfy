/**
 * The pieces of Java's runtime that the SQL layer leans on, stated exactly
 * for the cases the code uses: null references, the exception kinds it
 * raises or lets escape, String.trim / isEmpty, String.replace of one
 * character, String.split(","), String.contains, Integer.toString,
 * StringJoiner / Collectors.joining, and the character-class regex
 * ^[a-zA-Z0-9_]+$.
 */
module JavaText {

  /** A Java reference that may be null: None stands for null. */
  datatype Option<T> = None | Some(value: T)

  /** The exceptions the core throws or lets escape. */
  datatype Error =
    | IllegalArgument(message: string)   // IllegalArgumentException from QueryBuilder
    | NullPointer                        // NullPointerException (dereferencing null)
    | SqlError(message: string)          // SQLException (validation, closed connection, server)
    | IndexOutOfBounds                   // ArrayIndexOutOfBoundsException (a table row that is not there)

  datatype Result<T> = Ok(value: T) | Err(error: Error)

  datatype Outcome = Pass | Fail(error: Error)

  // ---------------------------------------------------------------------
  // String.trim() and blankness
  // ---------------------------------------------------------------------

  /** String.trim() removes every leading and trailing char whose code is at most U+0020. */
  predicate IsSpace(c: char) {
    c <= ' '
  }

  /** `s.trim().isEmpty()`: nothing but trimmable characters. */
  predicate IsBlank(s: string) {
    forall i | 0 <= i < |s| :: IsSpace(s[i])
  }

  function TrimStart(s: string): (r: string)
    ensures |r| <= |s| && r == s[|s| - |r|..]
    ensures IsBlank(s[..|s| - |r|])
    ensures r == [] || !IsSpace(r[0])
  {
    if |s| > 0 && IsSpace(s[0]) then
      var r := TrimStart(s[1..]);
      assert s[..|s| - |r|] == [s[0]] + s[1..][..|s| - 1 - |r|];
      r
    else
      s
  }

  function TrimEnd(s: string): (r: string)
    ensures |r| <= |s| && r == s[..|r|]
    ensures IsBlank(s[|r|..])
    ensures r == [] || !IsSpace(r[|r| - 1])
  {
    if |s| > 0 && IsSpace(s[|s| - 1]) then
      var r := TrimEnd(s[..|s| - 1]);
      assert s[|r|..] == s[..|s| - 1][|r|..] + [s[|s| - 1]];
      r
    else
      s
  }

  /**
   * String.trim(): the result is the middle of `s` left after cutting
   * trimmable characters off both ends, and it is empty exactly when `s` is blank.
   */
  function Trim(s: string): (r: string)
    ensures r == [] <==> IsBlank(s)
    ensures r == [] || (!IsSpace(r[0]) && !IsSpace(r[|r| - 1]))
  {
    var t := TrimStart(s);
    var r := TrimEnd(t);
    assert t != [] ==> !IsSpace(s[|s| - |t|]);
    assert r == [] ==> IsBlank(s) by {
      if r == [] {
        assert s == s[..|s| - |t|] + t;
        assert t == t[|r|..];
      }
    }
    r
  }

  /** `r` is the slice of `s` from `i`, with only trimmable characters around it. */
  ghost predicate BlankAround(s: string, r: string, i: nat) {
    i + |r| <= |s| && r == s[i..i + |r|] && IsBlank(s[..i]) && IsBlank(s[i + |r|..])
  }

  /** Trim cuts only trimmable characters, and only at the two ends. */
  lemma TrimIsInfix(s: string) returns (i: nat)
    ensures BlankAround(s, Trim(s), i)
  {
    var t := TrimStart(s);
    i := |s| - |t|;
    assert BlankAround(s, TrimEnd(t), i) by {
      InfixSlices(s, t, TrimEnd(t), i);
    }
  }

  /** A prefix of a suffix cut after blanks, with blanks after it, is such a slice. */
  lemma InfixSlices(s: string, t: string, r: string, i: nat)
    requires i <= |s| && t == s[i..] && IsBlank(s[..i])
    requires |r| <= |t| && r == t[..|r|] && IsBlank(t[|r|..])
    ensures BlankAround(s, r, i)
  {
    assert t[|r|..] == s[i + |r|..];
  }

  // ---------------------------------------------------------------------
  // String.replace(c, cc): every occurrence of one character doubled
  // ---------------------------------------------------------------------

  function Occurrences(s: string, c: char): nat {
    multiset(s)[c]
  }

  /** `s.replace(String.valueOf(c), "" + c + c)`. */
  function Doubled(s: string, c: char): (r: string)
    ensures c !in s ==> r == s
  {
    if s == [] then [] else (if s[0] == c then [c, c] else [s[0]]) + Doubled(s[1..], c)
  }

  /** Each occurrence of `c` becomes two: the text grows by one char per occurrence. */
  lemma {:induction false} DoubledCounts(s: string, c: char)
    ensures |Doubled(s, c)| == |s| + Occurrences(s, c)
    ensures Occurrences(Doubled(s, c), c) == 2 * Occurrences(s, c)
  {
    if s != [] {
      assert s == [s[0]] + s[1..];
      DoubledCounts(s[1..], c);
      var head := if s[0] == c then [c, c] else [s[0]];
      assert multiset(head + Doubled(s[1..], c)) == multiset(head) + multiset(Doubled(s[1..], c));
    }
  }

  // ---------------------------------------------------------------------
  // StringJoiner / Collectors.joining
  // ---------------------------------------------------------------------

  function Join(sep: string, parts: seq<string>): string {
    if |parts| == 0 then []
    else if |parts| == 1 then parts[0]
    else parts[0] + sep + Join(sep, parts[1..])
  }

  /** Two or more parts: the first, the separator, and the rest joined. */
  lemma JoinCons(sep: string, parts: seq<string>, rest: string)
    requires |parts| > 1
    ensures Join(sep, parts) + rest == parts[0] + (sep + (Join(sep, parts[1..]) + rest))
  {
  }

  /** Adding one more part appends the separator and the part. */
  lemma {:induction false} JoinSnoc(sep: string, parts: seq<string>, p: string)
    requires |parts| > 0
    ensures Join(sep, parts + [p]) == Join(sep, parts) + sep + p
  {
    if |parts| > 1 {
      assert (parts + [p])[1..] == parts[1..] + [p];
      JoinSnoc(sep, parts[1..], p);
    }
  }

  // ---------------------------------------------------------------------
  // String.split(",")
  // ---------------------------------------------------------------------

  /** Every comma-separated piece, empty ones included (a split with limit -1). */
  function SplitAll(s: string): (r: seq<string>)
    ensures |r| >= 1
    ensures forall i | 0 <= i < |r| :: ',' !in r[i]
  {
    if s == [] then [[]]
    else
      var rest := SplitAll(s[1..]);
      if s[0] == ',' then [[]] + rest
      else [[s[0]] + rest[0]] + rest[1..]
  }

  /** The pieces, rejoined with commas, give back the string. */
  lemma {:induction false} SplitAllJoin(s: string)
    ensures Join(",", SplitAll(s)) == s
  {
    if s != [] {
      var rest := SplitAll(s[1..]);
      SplitAllJoin(s[1..]);
      if s[0] != ',' {
        var r := [[s[0]] + rest[0]] + rest[1..];
        assert r[1..] == rest[1..];
        if |rest| > 1 {
          assert Join(",", rest) == rest[0] + "," + Join(",", rest[1..]);
        }
      }
    }
  }

  /** There is one more piece than there are commas. */
  lemma {:induction false} SplitAllCount(s: string)
    ensures |SplitAll(s)| == Occurrences(s, ',') + 1
  {
    if s != [] {
      assert s == [s[0]] + s[1..];
      SplitAllCount(s[1..]);
    }
  }

  function DropTrailingEmpty(parts: seq<string>): (r: seq<string>)
    ensures |r| <= |parts| && r == parts[..|r|]
    ensures forall i | |r| <= i < |parts| :: parts[i] == []
    ensures r == [] || r[|r| - 1] != []
  {
    if |parts| > 0 && parts[|parts| - 1] == [] then DropTrailingEmpty(parts[..|parts| - 1])
    else parts
  }

  /**
   * `s.split(",")`: when no comma occurs the result is the whole string (so
   * "" gives [""]); otherwise all pieces with the trailing empty ones removed.
   */
  function Split(s: string): (r: seq<string>)
    ensures forall i | 0 <= i < |r| :: ',' !in r[i]
    ensures |r| <= |SplitAll(s)|
  {
    if ',' !in s then [s] else DropTrailingEmpty(SplitAll(s))
  }

  /** What Split promises: comma-free pieces that, with the dropped empty tail, rejoin to `s`. */
  lemma SplitPieces(s: string)
    ensures forall i | 0 <= i < |Split(s)| :: ',' !in Split(s)[i]
    ensures Split(s) == SplitAll(s)[..|Split(s)|]
    ensures forall i | |Split(s)| <= i < |SplitAll(s)| :: SplitAll(s)[i] == []
    ensures ',' in s ==> Split(s) == [] || Split(s)[|Split(s)| - 1] != []
    ensures ',' !in s ==> Split(s) == [s]
  {
    if ',' !in s {
      SplitAllCount(s);
      SplitAllJoin(s);
    }
  }

  // ---------------------------------------------------------------------
  // String.contains
  // ---------------------------------------------------------------------

  predicate StartsWith(s: string, prefix: string) {
    |prefix| <= |s| && s[..|prefix|] == prefix
  }

  /** `s.contains(sub)`: `sub` starts at some position of `s`. */
  predicate Contains(s: string, sub: string): (b: bool)
    ensures b ==> |sub| <= |s|
    ensures sub == [] ==> b
  {
    StartsWith(s, sub) || (|s| > 0 && Contains(s[1..], sub))
  }

  // ---------------------------------------------------------------------
  // Integer.toString / Long.toString (width not modelled)
  // ---------------------------------------------------------------------

  predicate IsDigit(c: char) {
    '0' <= c <= '9'
  }

  function DigitChar(d: nat): (c: char)
    requires d < 10
    ensures IsDigit(c) && c as int - '0' as int == d
  {
    (d + '0' as int) as char
  }

  function NatToString(n: nat): (r: string)
    ensures |r| > 0 && forall i | 0 <= i < |r| :: IsDigit(r[i])
    decreases n
  {
    if n < 10 then [DigitChar(n)] else NatToString(n / 10) + [DigitChar(n % 10)]
  }

  /** Decimal rendering of an integer, with a leading '-' when negative. */
  function IntToString(i: int): (r: string)
    ensures |r| > 0
    ensures forall k | 0 <= k < |r| :: IsDigit(r[k]) || r[k] == '-'
  {
    if i < 0 then "-" + NatToString(-i) else NatToString(i)
  }

  predicate AllDigits(s: string) {
    forall i | 0 <= i < |s| :: IsDigit(s[i])
  }

  function ParseNat(s: string): nat
    requires AllDigits(s)
  {
    if s == [] then 0 else 10 * ParseNat(s[..|s| - 1]) + (s[|s| - 1] as int - '0' as int)
  }

  /** Reads back a decimal integer (Integer.parseInt without the width check). */
  function ParseInt(s: string): Option<int> {
    if |s| > 1 && s[0] == '-' && AllDigits(s[1..]) then Some(0 - ParseNat(s[1..]))
    else if |s| > 0 && AllDigits(s) then Some(ParseNat(s))
    else None
  }

  lemma {:induction false} ParseNatToString(n: nat)
    ensures ParseNat(NatToString(n)) == n
    decreases n
  {
    if n >= 10 {
      var s := NatToString(n);
      assert s[..|s| - 1] == NatToString(n / 10);
      ParseNatToString(n / 10);
    }
  }

  /** Integer.parseInt inverts Integer.toString. */
  lemma ParseIntToString(i: int)
    ensures ParseInt(IntToString(i)) == Some(i)
  {
    if i < 0 {
      assert IntToString(i)[1..] == NatToString(-i);
      ParseNatToString(-i);
    } else {
      ParseNatToString(i);
    }
  }

  // ---------------------------------------------------------------------
  // The regex ^[a-zA-Z0-9_]+$ used by String.matches
  // ---------------------------------------------------------------------

  predicate IsWordChar(c: char) {
    ('a' <= c <= 'z') || ('A' <= c <= 'Z') || ('0' <= c <= '9') || c == '_'
  }

  /** `s.matches("^[a-zA-Z0-9_]+$")`: one or more ASCII letters, digits or underscores, nothing else. */
  predicate MatchesWordPattern(s: string): (b: bool)
    ensures b ==> s != [] && '\'' !in s && '`' !in s && ' ' !in s
  {
    |s| > 0 && forall i | 0 <= i < |s| :: IsWordChar(s[i])
  }
}
