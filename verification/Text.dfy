/** Splitting and joining strings at a separator. */
module Text {
  import opened Options

  /** The pieces between the separators; there is always at least one. */
  function Split(s: string, c: char): (r: seq<string>)
    ensures r != [] && (forall p <- r :: c !in p)
    ensures Join(r, c) == s
  {
    if s == "" then [""] else
      var rest := Split(s[1..], c);
      if s[0] == c then [""] + rest else PushFront(s[0], rest)
  }

  /** The pieces with one more character at the front of the first. */
  function PushFront(x: char, pieces: seq<string>): (r: seq<string>)
    requires pieces != []
    ensures forall c :: Join(r, c) == [x] + Join(pieces, c)
  {
    [[x] + pieces[0]] + pieces[1..]
  }

  function Join(items: seq<string>, c: char): string {
    if items == [] then "" else if |items| == 1 then items[0] else items[0] + [c] + Join(items[1..], c)
  }

  /** Split undoes Join when no item holds the separator. */
  lemma {:induction false} SplitUndoesJoin(items: seq<string>, c: char)
    requires items != [] && forall p <- items :: c !in p
    ensures Split(Join(items, c), c) == items
    decreases |items|
  {
    if |items| == 1 {
      SplitWhole(items[0], c);
      assert items == [items[0]];
    } else {
      SplitUndoesJoin(items[1..], c);
      SplitWhole(items[0], c);
      SplitFirst(items[0], Join(items[1..], c), c);
      assert items == [items[0]] + items[1..];
      assert items[0] + [c] + Join(items[1..], c) == items[0] + ([c] + Join(items[1..], c));
    }
  }

  lemma {:induction false} SplitWhole(s: string, c: char)
    requires c !in s
    ensures Split(s, c) == [s]
  {
    if s != "" {
      SplitWhole(s[1..], c);
      assert [s[0]] + s[1..] == s;
    }
  }

  lemma {:induction false} SplitFirst(first: string, rest: string, c: char)
    ensures Split(first + ([c] + rest), c) == Split(first, c) + Split(rest, c)
  {
    hide Join, Split, PushFront;
    var all := first + ([c] + rest);
    SplitStep(all, c);
    if first == "" {
      SplitNothing(c);
      assert all[1..] == rest;
    } else {
      assert all[1..] == first[1..] + ([c] + rest) && all[0] == first[0];
      SplitFirst(first[1..], rest, c);
      SplitStep(first, c);
      var a, b := Split(first[1..], c), Split(rest, c);
      if first[0] == c {
        assert [""] + (a + b) == ([""] + a) + b;
      } else {
        PushFrontAppend(first[0], a, b);
      }
    }
  }

  lemma SplitStep(s: string, c: char)
    requires s != ""
    ensures Split(s, c) == if s[0] == c then [""] + Split(s[1..], c) else PushFront(s[0], Split(s[1..], c))
  {}

  lemma SplitNothing(c: char)
    ensures Split("", c) == [""]
  {}

  lemma PushFrontAppend(x: char, a: seq<string>, b: seq<string>)
    requires a != []
    ensures PushFront(x, a + b) == PushFront(x, a) + b
  {
    assert (a + b)[1..] == a[1..] + b;
  }

  /** Joining and splitting again gives more pieces when an item holds the separator. */
  lemma {:induction false} SplitGrows(items: seq<string>, c: char)
    requires items != []
    ensures |Split(Join(items, c), c)| >= |items|
    ensures |Split(Join(items, c), c)| == |items| ==> forall p <- items :: c !in p
    decreases |items|
  {
    hide Split;
    PiecesOf(items[0], c);
    if |items| == 1 {
      assert items == [items[0]];
    } else {
      SplitGrows(items[1..], c);
      SplitFirst(items[0], Join(items[1..], c), c);
      assert items == [items[0]] + items[1..];
      assert items[0] + [c] + Join(items[1..], c) == items[0] + ([c] + Join(items[1..], c));
    }
  }

  lemma PiecesOf(s: string, c: char)
    ensures |Split(s, c)| == 1 ==> c !in s
  {
    var r := Split(s, c);
    if |r| == 1 {
      assert Join(r, c) == r[0] && r[0] in r;
    }
  }

  /** What is before and after the first separator, if there is one. */
  function SplitOnce(s: string, c: char): (r: Option<(string, string)>)
    ensures r.None? <==> c !in s
    ensures r.Some? ==> c !in r.value.0 && s == r.value.0 + [c] + r.value.1
  {
    if s == "" then None
    else if s[0] == c then Some(("", s[1..]))
    else match SplitOnce(s[1..], c)
      case None => None
      case Some((k, v)) => Some(([s[0]] + k, v))
  }

  lemma {:induction false} SplitOnceAt(k: string, v: string, c: char)
    requires c !in k
    ensures SplitOnce(k + [c] + v, c) == Some((k, v))
  {
    if k == "" {
      assert (k + [c] + v)[1..] == v;
    } else {
      SplitOnceAt(k[1..], v, c);
      assert (k + [c] + v)[1..] == k[1..] + [c] + v && [k[0]] + k[1..] == k;
    }
  }
}
