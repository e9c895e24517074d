/** SQL string literals for cell texts: every single quote is doubled and the result is put
    between single quotes (main.go:62). */
module Escape {
  import opened Wrappers

  const Quote: char := '\''

  /** The cell text with every quote replaced by two quotes, as
      `strings.Replace(v, "'", "''", -1)` does; every other character stays in place. */
  function Escape(s: string): string
    decreases |s|
  {
    if s == [] then []
    else (if s[0] == Quote then [Quote, Quote] else [s[0]]) + Escape(s[1..])
  }

  /** The single-quoted literal written for one cell. */
  function Literal(s: string): string {
    [Quote] + Escape(s) + [Quote]
  }

  /** The inverse rewrite: each pair of adjacent quotes collapses to one quote. */
  function Unescape(r: string): string
    decreases |r|
  {
    if r == [] then []
    else if |r| >= 2 && r[0] == Quote && r[1] == Quote then [Quote] + Unescape(r[2..])
    else [r[0]] + Unescape(r[1..])
  }

  /** Quotes occur only in adjacent pairs. */
  predicate Paired(r: string)
    decreases |r|
  {
    || r == []
    || (r[0] != Quote && Paired(r[1..]))
    || (|r| >= 2 && r[0] == Quote && r[1] == Quote && Paired(r[2..]))
  }

  function CountQuotes(s: string): nat
    decreases |s|
  {
    if s == [] then 0 else (if s[0] == Quote then 1 else 0) + CountQuotes(s[1..])
  }

  /** The characters of s other than quotes, in order. */
  function NonQuotes(s: string): string
    decreases |s|
  {
    if s == [] then [] else (if s[0] == Quote then [] else [s[0]]) + NonQuotes(s[1..])
  }

  /** Escape works character by character. */
  lemma {:induction false} EscapeStep(c: char, s: string)
    ensures Escape([c] + s) == (if c == Quote then [Quote, Quote] else [c]) + Escape(s)
  {
    assert ([c] + s)[0] == c && ([c] + s)[1..] == s;
  }

  lemma {:induction false} CountQuotesAppend(a: string, b: string)
    ensures CountQuotes(a + b) == CountQuotes(a) + CountQuotes(b)
  {
    if a != [] {
      assert (a + b)[0] == a[0] && (a + b)[1..] == a[1..] + b;
      CountQuotesAppend(a[1..], b);
    } else {
      assert a + b == b;
    }
  }

  lemma {:induction false} NonQuotesAppend(a: string, b: string)
    ensures NonQuotes(a + b) == NonQuotes(a) + NonQuotes(b)
  {
    if a != [] {
      assert (a + b)[0] == a[0] && (a + b)[1..] == a[1..] + b;
      NonQuotesAppend(a[1..], b);
    } else {
      assert a + b == b;
    }
  }

  /** A cell text with k quotes escapes to a text with 2k quotes. */
  lemma {:induction false} EscapeDoublesQuotes(s: string)
    ensures CountQuotes(Escape(s)) == 2 * CountQuotes(s)
  {
    if s != [] {
      var head := if s[0] == Quote then [Quote, Quote] else [s[0]];
      CountQuotesAppend(head, Escape(s[1..]));
      EscapeDoublesQuotes(s[1..]);
    }
  }

  /** Escaping keeps every other character, in order. */
  lemma {:induction false} EscapeKeepsNonQuotes(s: string)
    ensures NonQuotes(Escape(s)) == NonQuotes(s)
  {
    if s != [] {
      var head := if s[0] == Quote then [Quote, Quote] else [s[0]];
      NonQuotesAppend(head, Escape(s[1..]));
      EscapeKeepsNonQuotes(s[1..]);
    }
  }

  /** Collapsing each doubled quote gives back the cell text. */
  lemma {:induction false} UnescapeEscape(s: string)
    ensures Unescape(Escape(s)) == s
  {
    if s != [] {
      var r := Escape(s);
      UnescapeEscape(s[1..]);
      if s[0] == Quote {
        assert r[0] == Quote && r[1] == Quote && r[2..] == Escape(s[1..]);
      } else {
        assert r[0] == s[0] && r[1..] == Escape(s[1..]);
      }
      assert s == [s[0]] + s[1..];
    }
  }

  /** In an escaped text quotes come only in adjacent pairs. */
  lemma {:induction false} EscapePaired(s: string)
    ensures Paired(Escape(s))
  {
    if s != [] {
      var r := Escape(s);
      EscapePaired(s[1..]);
      if s[0] == Quote {
        assert r[0] == Quote && r[1] == Quote && r[2..] == Escape(s[1..]);
      } else {
        assert r[0] == s[0] && r[1..] == Escape(s[1..]);
      }
    }
  }

  /** Conversely, every text whose quotes are paired is the escape of some cell text,
      namely of its unescaping. */
  lemma {:induction false} PairedIsEscaped(r: string)
    requires Paired(r)
    ensures Escape(Unescape(r)) == r
  {
    if r != [] {
      if r[0] == Quote {
        assert |r| >= 2 && r[1] == Quote && Paired(r[2..]);
        PairedIsEscaped(r[2..]);
        EscapeStep(Quote, Unescape(r[2..]));
        assert r == [Quote, Quote] + r[2..];
      } else {
        PairedIsEscaped(r[1..]);
        EscapeStep(r[0], Unescape(r[1..]));
        assert r == [r[0]] + r[1..];
      }
    }
  }

  /** The body of a SQL string literal, read after its opening quote: `''` stands for one
      quote and a lone quote closes the literal. Gives the text denoted and what follows
      the closing quote, or None when the input ends before the literal does. */
  function ReadLiteralBody(t: string): (r: Option<(string, string)>)
    ensures r.Some? ==> t == Escape(r.value.0) + [Quote] + r.value.1
    decreases |t|
  {
    if t == [] then None
    else if t[0] == Quote then
      if |t| >= 2 && t[1] == Quote then
        match ReadLiteralBody(t[2..])
        case None => None
        case Some((v, rest)) =>
          EscapeStep(Quote, v);
          assert t == [Quote, Quote] + t[2..];
          Some(([Quote] + v, rest))
      else
        assert t == [Quote] + t[1..];
        Some(([], t[1..]))
    else
      match ReadLiteralBody(t[1..])
      case None => None
      case Some((v, rest)) =>
        EscapeStep(t[0], v);
        assert t == [t[0]] + t[1..];
        Some(([t[0]] + v, rest))
  }

  /** A SQL string literal at the front of t. Whatever it accepts is exactly the literal
      written for the text it returns, followed by the rest. */
  function ReadLiteral(t: string): (r: Option<(string, string)>)
    ensures r.Some? ==> t == Literal(r.value.0) + r.value.1
  {
    if t != [] && t[0] == Quote then
      assert t == [Quote] + t[1..];
      ReadLiteralBody(t[1..])
    else None
  }

  lemma {:induction false} ReadLiteralBodyEscape(s: string, rest: string)
    requires rest == [] || rest[0] != Quote
    ensures ReadLiteralBody(Escape(s) + [Quote] + rest) == Some((s, rest))
    decreases |s|
  {
    var t := Escape(s) + [Quote] + rest;
    if s == [] {
      assert t == [Quote] + rest;
    } else {
      ReadLiteralBodyEscape(s[1..], rest);
      var tail := Escape(s[1..]) + [Quote] + rest;
      if s[0] == Quote {
        assert t == [Quote, Quote] + tail;
        assert t[2..] == tail;
      } else {
        assert t == [s[0]] + tail;
        assert t[1..] == tail;
      }
      assert s == [s[0]] + s[1..];
    }
  }

  /** The literal written for a cell is one complete SQL string literal: a reader stops at its
      closing quote (whenever what follows is not a quote) and recovers the cell text. */
  lemma ReadLiteralOfLiteral(s: string, rest: string)
    requires rest == [] || rest[0] != Quote
    ensures ReadLiteral(Literal(s) + rest) == Some((s, rest))
  {
    var t := Literal(s) + rest;
    assert t[1..] == Escape(s) + [Quote] + rest;
    ReadLiteralBodyEscape(s, rest);
  }
}
