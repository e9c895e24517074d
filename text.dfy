/** Sequence-of-characters helpers shared by the emitters and the readers. */
module Text {

  /** The items in order, with `sep` between each two consecutive ones. */
  function Join(sep: string, items: seq<string>): string
    decreases |items|
  {
    if |items| == 0 then ""
    else if |items| == 1 then items[0]
    else items[0] + sep + Join(sep, items[1..])
  }

  /** Appending one item to the list appends a separator (unless the list was empty) and the item:
      this is how the emitters' `if i > 0 { sep }` loops grow their output. */
  lemma {:induction false} JoinSnoc(sep: string, items: seq<string>, x: string)
    ensures Join(sep, items + [x]) == if items == [] then x else Join(sep, items) + sep + x
  {
    if |items| == 0 {
      assert items + [x] == [x];
    } else if |items| == 1 {
      assert (items + [x])[1..] == [x];
    } else {
      assert (items + [x])[1..] == items[1..] + [x];
      JoinSnoc(sep, items[1..], x);
    }
  }

  /** f applied to every element, in order. */
  function Map<A, B>(f: A -> B, s: seq<A>): (r: seq<B>)
    ensures |r| == |s|
  {
    seq(|s|, i requires 0 <= i < |s| => f(s[i]))
  }

  lemma MapTail<A, B>(f: A -> B, s: seq<A>)
    requires |s| > 0
    ensures Map(f, s)[1..] == Map(f, s[1..])
  {
  }

  /** Extending a prefix by one element. */
  lemma TakeSnoc<T>(s: seq<T>, i: nat)
    requires i < |s|
    ensures s[..i + 1] == s[..i] + [s[i]]
  {
  }

  /** Regroups a four-part concatenation as its first part followed by the other three. */
  lemma RegroupAfterFirst(a: string, b: string, c: string, d: string)
    ensures a + b + c + d == a + (b + c + d)
  {
  }

  /** A join of two or more items starts with the first item and the separator. */
  lemma JoinCons(sep: string, items: seq<string>)
    requires |items| >= 2
    ensures Join(sep, items) == items[0] + sep + Join(sep, items[1..])
  {
  }

  /** Splits `s` at the first occurrence of `stop`: the part before it and the rest, which is
      empty or starts with `stop`. */
  function ReadUntil(s: string, stop: char): (r: (string, string))
    ensures r.0 + r.1 == s
    ensures stop !in r.0
    ensures r.1 == [] || r.1[0] == stop
    decreases |s|
  {
    if s == [] then ([], [])
    else if s[0] == stop then ([], s)
    else
      var (before, rest) := ReadUntil(s[1..], stop);
      ([s[0]] + before, rest)
  }

  /** The split found by ReadUntil is the only one its contract allows. */
  lemma {:induction false} ReadUntilSplit(a: string, b: string, stop: char)
    requires stop !in a
    requires b == [] || b[0] == stop
    ensures ReadUntil(a + b, stop) == (a, b)
  {
    if a == [] {
      assert a + b == b;
    } else {
      assert (a + b)[0] == a[0] && (a + b)[1..] == a[1..] + b;
      ReadUntilSplit(a[1..], b, stop);
      assert [a[0]] + a[1..] == a;
    }
  }

  /** A character that occurs in neither `a` nor `a'` splits `a + [c] + b` uniquely. */
  lemma SplitAtFirst(a: string, b: string, a': string, b': string, c: char)
    requires c !in a && c !in a'
    requires a + [c] + b == a' + [c] + b'
    ensures a == a' && b == b'
  {
    ReadUntilSplit(a, [c] + b, c);
    ReadUntilSplit(a', [c] + b', c);
    assert a + [c] + b == a + ([c] + b);
    assert a' + [c] + b' == a' + ([c] + b');
    assert [c] + b == [c] + b';
    assert b == ([c] + b)[1..] == ([c] + b')[1..] == b';
  }
}
