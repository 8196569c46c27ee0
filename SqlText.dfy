/**
 * How a MySQL server reads the statement text the core builds, reduced to
 * what matters for identifier escaping and parameter alignment: back-quoted
 * identifiers, single- and double-quoted string literals (a doubled quote
 * inside stands for one quote, section 11.2 "Schema Object Names" and
 * section 11.1.1 "String Literals" of the MySQL 8.0 Reference Manual), and `?`
 * placeholders outside quotes. Everything else is skipped.
 *
 * `Marks(s)` lists, in order, the identifiers, literals and placeholders of
 * `s`; the builders' lemmas state their output in these terms.
 */
module SqlText {
  import opened JavaText

  datatype Mark =
    | Id(name: string)      // a back-quoted identifier, with `` read as `
    | Lit(text: string)     // a quoted string literal, with '' read as '
    | Hole                  // a ? placeholder
    | Unterminated          // an opening quote that is never closed

  predicate IsQuote(c: char) {
    c == '`' || c == '\'' || c == '"'
  }

  /**
   * Reads the body of a token opened by quote `q` (the opening quote already
   * consumed): the text it stands for and how many characters it occupies,
   * the closing quote included; None when it is never closed.
   */
  function Lex(s: string, q: char): (r: Option<(string, nat)>)
    ensures r.Some? ==> 1 <= r.value.1 <= |s|
    decreases |s|
  {
    if s == [] then None
    else if s[0] == q then
      if |s| >= 2 && s[1] == q then
        match Lex(s[2..], q)
        case None => None
        case Some(p) => Some(([q] + p.0, p.1 + 2))
      else
        Some(([], 1))
    else
      match Lex(s[1..], q)
      case None => None
      case Some(p) => Some(([s[0]] + p.0, p.1 + 1))
  }

  function Marks(s: string): seq<Mark>
    decreases |s|
  {
    if s == [] then []
    else if IsQuote(s[0]) then
      match Lex(s[1..], s[0])
      case None => [Unterminated]
      case Some(p) => [if s[0] == '`' then Id(p.0) else Lit(p.0)] + Marks(s[1 + p.1..])
    else if s[0] == '?' then [Hole] + Marks(s[1..])
    else Marks(s[1..])
  }

  /** Text that cannot continue a quoted token just closed before it. */
  predicate Safe(rest: string) {
    rest == [] || !IsQuote(rest[0])
  }

  /** Text with no quotes and no placeholders: the server reads nothing in it. */
  predicate Plain(p: string) {
    forall i | 0 <= i < |p| :: !IsQuote(p[i]) && p[i] != '?'
  }

  lemma PlainAppend(a: string, b: string)
    requires Plain(a) && Plain(b)
    ensures Plain(a + b)
  {
    forall i | 0 <= i < |a + b| ensures !IsQuote((a + b)[i]) && (a + b)[i] != '?' {
      if i < |a| { assert (a + b)[i] == a[i]; } else { assert (a + b)[i] == b[i - |a|]; }
    }
  }

  /** The quoted form of `x`: every `q` doubled and the whole wrapped in `q`. */
  function Quoted(x: string, q: char): string {
    [q] + Doubled(x, q) + [q]
  }

  /** The mark a server reads for a token quoted with `q`. */
  function QuotedMark(x: string, q: char): Mark {
    if q == '`' then Id(x) else Lit(x)
  }

  /** A token body read after `prefix` has been taken in `n` characters. */
  function Shifted(r: Option<(string, nat)>, prefix: string, n: nat): Option<(string, nat)> {
    if r.None? then None else Some((prefix + r.value.0, r.value.1 + n))
  }

  /** A doubled quote inside a token stands for one quote. */
  lemma LexPair(q: char, tail: string)
    ensures Lex([q, q] + tail, q) == Shifted(Lex(tail, q), [q], 2)
  {
    var s := [q, q] + tail;
    assert s[0] == q && s[1] == q && s[2..] == tail;
  }

  /** Any other character inside a token stands for itself. */
  lemma LexOther(c: char, q: char, tail: string)
    requires c != q
    ensures Lex([c] + tail, q) == Shifted(Lex(tail, q), [c], 1)
  {
    var s := [c] + tail;
    assert s[0] == c && s[1..] == tail;
  }

  /** The body of Quoted(x, q) reads back as exactly `x`, ending at the closing quote. */
  lemma {:induction false} LexDoubled(x: string, q: char, rest: string)
    requires rest == [] || rest[0] != q
    ensures Lex(Doubled(x, q) + [q] + rest, q) == Some((x, |Doubled(x, q)| + 1))
  {
    if x == [] {
      assert Doubled(x, q) + [q] + rest == [q] + rest;
    } else {
      LexDoubled(x[1..], q, rest);
      LexDoubledStep(x, q, rest);
    }
  }

  /** The first character of the body, doubled or not, in front of what follows it. */
  lemma LexDoubledStep(x: string, q: char, rest: string)
    requires x != []
    requires Lex(Doubled(x[1..], q) + [q] + rest, q) == Some((x[1..], |Doubled(x[1..], q)| + 1))
    ensures Lex(Doubled(x, q) + [q] + rest, q) == Some((x, |Doubled(x, q)| + 1))
  {
    var d := Doubled(x[1..], q);
    var head := if x[0] == q then [q, q] else [x[0]];
    assert Doubled(x, q) == head + d;
    assert [x[0]] + x[1..] == x;
    LexHead(x[0], q, d + [q] + rest);
    Regroup(head, d, [q], rest);
  }

  lemma Regroup(a: string, b: string, c: string, e: string)
    ensures a + b + c + e == a + (b + c + e)
  {
  }

  /** Lex over one character of the body, doubled when it is the quote. */
  lemma LexHead(c: char, q: char, tail: string)
    ensures Lex((if c == q then [q, q] else [c]) + tail, q)
         == Shifted(Lex(tail, q), [c], if c == q then 2 else 1)
  {
    if c == q {
      LexPair(q, tail);
    } else {
      LexOther(c, q, tail);
    }
  }

  /** A quoted token is read as one mark, and the text after it is read on its own. */
  lemma MarksQuoted(x: string, q: char, rest: string)
    requires IsQuote(q) && Safe(rest)
    ensures Marks(Quoted(x, q) + rest) == [QuotedMark(x, q)] + Marks(rest)
  {
    var s := Quoted(x, q) + rest;
    var k := |Doubled(x, q)| + 1;
    assert s[0] == q;
    assert s[1..] == Doubled(x, q) + [q] + rest;
    LexDoubled(x, q, rest);
    assert Lex(s[1..], s[0]) == Some((x, k));
    assert s[1 + k..] == rest;
  }

  /** Plain text contributes nothing. */
  lemma {:induction false} MarksPlain(p: string, rest: string)
    requires Plain(p)
    ensures Marks(p + rest) == Marks(rest)
  {
    if p != [] {
      var s := p + rest;
      assert s[0] == p[0] && !IsQuote(s[0]) && s[0] != '?';
      assert s[1..] == p[1..] + rest;
      MarksPlain(p[1..], rest);
    } else {
      assert p + rest == rest;
    }
  }

  /** A `?` outside quotes is a placeholder. */
  lemma MarksHole(rest: string)
    ensures Marks("?" + rest) == [Hole] + Marks(rest)
  {
    assert ("?" + rest)[1..] == rest;
  }

  /** A token body with no closing quote is never closed. */
  lemma {:induction false} LexUnclosed(p: string, q: char)
    requires IsQuote(q) && Plain(p)
    ensures Lex(p, q) == None
  {
    if p != [] {
      assert p[0] != q;
      LexUnclosed(p[1..], q);
    }
  }

  /** Text with no quotes after a token body leaves how the body is read unchanged. */
  lemma {:induction false} LexPlainSuffix(x: string, q: char, p: string)
    requires IsQuote(q) && Plain(p)
    ensures Lex(x + p, q) == Lex(x, q)
    decreases |x|
  {
    if x == [] {
      assert x + p == p;
      LexUnclosed(p, q);
    } else if x[0] == q && |x| >= 2 && x[1] == q {
      var t := x[2..];
      assert x == [q, q] + t && x + p == [q, q] + (t + p);
      LexPair(q, t);
      LexPair(q, t + p);
      LexPlainSuffix(t, q, p);
    } else if x[0] == q {
      var s := x + p;
      assert s[0] == q;
      assert |s| < 2 || s[1] != q by {
        if |x| >= 2 { assert s[1] == x[1]; } else if |s| >= 2 { assert s[1] == p[0]; }
      }
      assert Lex(s, q) == Some(([], 1));
    } else {
      var t := x[1..];
      assert x == [x[0]] + t && x + p == [x[0]] + (t + p);
      LexOther(x[0], q, t);
      LexOther(x[0], q, t + p);
      LexPlainSuffix(t, q, p);
    }
  }

  /** Appending plain text adds no mark, even after an unclosed quote. */
  lemma {:induction false} MarksPlainSuffix(s: string, p: string)
    requires Plain(p)
    ensures Marks(s + p) == Marks(s)
    decreases |s|
  {
    if s == [] {
      MarksPlain(p, []);
      assert p + [] == p && s + p == p;
    } else {
      var t := s + p;
      assert t[0] == s[0] && t[1..] == s[1..] + p;
      if IsQuote(s[0]) {
        LexPlainSuffix(s[1..], s[0], p);
        match Lex(s[1..], s[0])
        case None =>
        case Some(r) =>
          assert t[1 + r.1..] == s[1 + r.1..] + p;
          MarksPlainSuffix(s[1 + r.1..], p);
      } else {
        MarksPlainSuffix(s[1..], p);
      }
    }
  }
}
