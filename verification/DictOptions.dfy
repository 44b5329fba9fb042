/** Dictionary options on their way from the client's command line to the broker. */
module DictOptions {
  import opened Options
  import opened Text

  /** The value of a key: a string, or a list once the key has been repeated. */
  datatype Entry = One(value: string) | Many(values: seq<string>)

  /** A dictionary that remembers the order in which its keys came. */
  datatype Dict = Dict(keys: seq<string>, at: map<string, Entry>)

  const EMPTY := Dict([], map[])

  type Pair = (string, string)

  ghost predicate IsDict(d: Dict) {
    && (forall i, j :: 0 <= i < j < |d.keys| ==> d.keys[i] != d.keys[j])
    && (forall k :: k in d.at <==> k in d.keys)
    && (forall k <- d.at :: d.at[k].Many? ==> |d.at[k].values| >= 2)
  }

  function Values(e: Entry): (r: seq<string>) {
    match e
    case One(v) => [v]
    case Many(vs) => vs
  }

  function Put(d: Dict, k: string, v: string): (r: Dict)
    ensures IsDict(d) ==> IsDict(r)
    ensures r.at.Keys == d.at.Keys + {k} && Values(r.at[k]) == (if k in d.at then Values(d.at[k]) else []) + [v]
    ensures forall w <- d.at :: w != k ==> r.at[w] == d.at[w]
  {
    if k in d.at then Dict(d.keys, d.at[k := Many(Values(d.at[k]) + [v])])
    else Dict(d.keys + [k], d.at[k := One(v)])
  }

  function PutAll(pairs: seq<Pair>): (d: Dict)
    ensures IsDict(d)
  {
    if pairs == [] then EMPTY else
      var n := |pairs| - 1;
      Put(PutAll(pairs[..n]), pairs[n].0, pairs[n].1)
  }

  /** The branches by which both sides add a pair to their dictionary. */
  method AddTo(d: Dict, k: string, v: string) returns (r: Dict)
    ensures r == Put(d, k, v)
  {
    if k in d.at {
      match d.at[k]
      case Many(values) => r := Dict(d.keys, d.at[k := Many(values + [v])]);
      case One(w) =>
        assert [w, v] == [w] + [v];
        r := Dict(d.keys, d.at[k := Many([w, v])]);
    } else {
      r := Dict(d.keys + [k], d.at[k := One(v)]);
    }
  }

  lemma PutOneMore(pairs: seq<Pair>, p: Pair)
    ensures PutAll(pairs + [p]) == Put(PutAll(pairs), p.0, p.1)
  {
    hide Put;
    assert (pairs + [p])[..|pairs|] == pairs;
  }

  /** The values given for a key, in order: what the dictionary should hold. */
  function ValuesFor(pairs: seq<Pair>, k: string): seq<string> {
    if pairs == [] then [] else
      var n := |pairs| - 1;
      ValuesFor(pairs[..n], k) + if pairs[n].0 == k then [pairs[n].1] else []
  }

  lemma {:induction false} PutAllMeaning(pairs: seq<Pair>, k: string)
    ensures k in PutAll(pairs).at <==> ValuesFor(pairs, k) != []
    ensures k in PutAll(pairs).at ==> Values(PutAll(pairs).at[k]) == ValuesFor(pairs, k)
  {
    if pairs != [] {
      PutAllMeaning(pairs[..|pairs| - 1], k);
    }
  }

  // Serialising a dictionary.

  function Item(p: Pair): string {
    p.0 + "=" + p.1
  }

  function PairsOf(k: string, values: seq<string>): seq<Pair> {
    seq(|values|, i requires 0 <= i < |values| => (k, values[i]))
  }

  /** All pairs of the first `n` keys. */
  ghost function PairsUpTo(d: Dict, n: nat): seq<Pair>
    requires n <= |d.keys| && forall k <- d.keys :: k in d.at
  {
    if n == 0 then [] else PairsUpTo(d, n - 1) + PairsOf(d.keys[n - 1], Values(d.at[d.keys[n - 1]]))
  }

  ghost function Pairs(d: Dict): seq<Pair>
    requires IsDict(d)
  {
    PairsUpTo(d, |d.keys|)
  }

  function Items(pairs: seq<Pair>): seq<string> {
    seq(|pairs|, i requires 0 <= i < |pairs| => Item(pairs[i]))
  }

  ghost function Serialised(d: Dict): string
    requires IsDict(d)
  {
    Join(Items(Pairs(d)), ',')
  }

  method Serialise(d: Dict) returns (text: string)
    requires IsDict(d)
    ensures text == Serialised(d)
  {
    var args: seq<string> := [];
    for n := 0 to |d.keys|
      invariant args == Items(PairsUpTo(d, n))
    {
      ghost var before := PairsUpTo(d, n);
      var k := d.keys[n];
      match d.at[k]
      case Many(values) =>
        args := args + seq(|values|, i requires 0 <= i < |values| => k + "=" + values[i]);
      case One(v) =>
        args := args + [k + "=" + v];
    }
    text := Join(args, ',');
  }

  // Reading it back.

  datatype Result = Ok(dict: Dict) | TypeError

  ghost predicate Readable(text: string) {
    forall p <- Split(text, ',') :: '=' in p
  }

  function PairAt(item: string): Pair
    requires '=' in item
  {
    SplitOnce(item, '=').value
  }

  function PairsIn(items: seq<string>): seq<Pair>
    requires forall p <- items :: '=' in p
  {
    seq(|items|, i requires 0 <= i < |items| => PairAt(items[i]))
  }

  lemma PairsInMore(items: seq<string>, item: string)
    requires (forall p <- items :: '=' in p) && '=' in item
    ensures (forall p <- items + [item] :: '=' in p) && PairsIn(items + [item]) == PairsIn(items) + [PairAt(item)]
  {}

  lemma NothingRead(items: seq<string>)
    requires items == []
    ensures PutAll(PairsIn(items)) == EMPTY
  {}

  /** An item without "=" leaves a list where a key is expected. */
  method ForceDict(text: string) returns (r: Result)
    ensures r == if Readable(text) then Ok(PutAll(PairsIn(Split(text, ',')))) else TypeError
  {
    hide Put, PutAll, PairsIn, Split;
    var items := Split(text, ',');
    var data := EMPTY;
    NothingRead(items[..0]);
    for n := 0 to |items|
      invariant forall p <- items[..n] :: '=' in p
      invariant data == PutAll(PairsIn(items[..n]))
    {
      match SplitOnce(items[n], '=')
      case None =>
        assert items[n] in items;
        return TypeError;
      case Some((k, v)) =>
        assert items[..n + 1] == items[..n] + [items[n]];
        PairsInMore(items[..n], items[n]);
        PutOneMore(PairsIn(items[..n]), (k, v));
        data := AddTo(data, k, v);
    }
    assert items[..|items|] == items;
    return Ok(data);
  }

  // The option on the command line.

  function Argument(value: string): Pair {
    match SplitOnce(value, '=')
    case None => (value, "")
    case Some(p) => p
  }

  /** What is before the first "=" is the key and what follows it the value; without one
      all is the key and the value is empty. */
  lemma ArgumentMeaning(value: string)
    ensures var p := Argument(value);
            '=' !in p.0 && if '=' in value then value == p.0 + "=" + p.1 else value == p.0 && p.1 == ""
  {}

  function Arguments(values: seq<string>): seq<Pair> {
    seq(|values|, i requires 0 <= i < |values| => Argument(values[i]))
  }

  lemma ArgumentsMore(values: seq<string>, value: string)
    ensures Arguments(values + [value]) == Arguments(values) + [Argument(value)]
  {
    hide Argument;
  }

  lemma NothingGiven()
    ensures PutAll(Arguments([])) == EMPTY
  {}

  /** An option holds the dictionary of the arguments given, none of which has a comma. */
  ghost predicate Gathered(item: Option<Dict>, given: seq<string>) {
    && (if given == [] then item.None? else item == Some(PutAll(Arguments(given))))
    && forall v <- given :: ',' !in v
  }

  lemma GatheredMore(item: Option<Dict>, given: seq<string>, value: string)
    requires Gathered(item, given) && ',' !in value
    ensures var p := Argument(value);
            Gathered(Some(Put(if item.None? then EMPTY else item.value, p.0, p.1)), given + [value])
  {
    hide Put, PutAll, Argument, Arguments;
    ArgumentsMore(given, value);
    PutOneMore(Arguments(given), Argument(value));
    NothingGiven();
  }

  class OptionValues {
    var item: Option<Dict>
    ghost var given: seq<string>  // the arguments accepted so far

    ghost predicate Valid()
      reads this
    {
      Gathered(item, given)
    }

    constructor ()
      ensures Valid() && given == []
    {
      item, given := None, [];
    }

    method StoreInDict(value: string) returns (ok: bool)
      requires Valid()
      modifies this
      ensures Valid() && (ok <==> ',' !in value)
      ensures given == if ok then old(given) + [value] else old(given)
    {
      hide Put, Argument, Gathered;
      if ',' in value {
        return false;
      }
      var (key, val) := Argument(value);
      GatheredMore(item, given, value);
      var d := AddTo(if item.None? then EMPTY else item.value, key, val);
      item := Some(d);
      given := given + [value];
      return true;
    }
  }

  // The round trip.

  predicate CleanPair(p: Pair) {
    '=' !in p.0 && ',' !in p.0 && ',' !in p.1
  }

  /** The dictionary cut down to its first `n` keys. */
  ghost function Cut(d: Dict, n: nat): Dict
    requires n <= |d.keys| && forall k <- d.keys :: k in d.at
  {
    Dict(d.keys[..n], map k | k in d.keys[..n] :: d.at[k])
  }

  lemma {:induction false} PutMany(front: seq<Pair>, k: string, values: seq<string>)
    requires k !in PutAll(front).at && values != []
    ensures var d := PutAll(front);
            PutAll(front + PairsOf(k, values)) ==
            Dict(d.keys + [k], d.at[k := if |values| == 1 then One(values[0]) else Many(values)])
    decreases |values|
  {
    hide PutAll;
    var n := |values| - 1;
    assert front + PairsOf(k, values) == front + PairsOf(k, values[..n]) + [(k, values[n])];
    PutOneMore(front + PairsOf(k, values[..n]), (k, values[n]));
    if n == 0 {
      assert front + PairsOf(k, values[..n]) == front;
    } else {
      PutMany(front, k, values[..n]);
      var d, e := PutAll(front), PutAll(front + PairsOf(k, values[..n]));
      assert Values(e.at[k]) == values[..n] && values[..n] + [values[n]] == values;
      assert e.at[k := Many(values)] == d.at[k := Many(values)];
    }
  }

  lemma PutNothing()
    ensures PutAll([]) == EMPTY
  {}

  lemma EntryFromValues(d: Dict, k: string)
    requires IsDict(d) && k in d.at
    ensures var values := Values(d.at[k]);
            values != [] && d.at[k] == if |values| == 1 then One(values[0]) else Many(values)
  {}

  lemma CutMore(d: Dict, n: nat)
    requires IsDict(d) && n < |d.keys|
    ensures d.keys[n] !in Cut(d, n).at && Cut(d, n).keys + [d.keys[n]] == Cut(d, n + 1).keys
    ensures Cut(d, n).at[d.keys[n] := d.at[d.keys[n]]] == Cut(d, n + 1).at
  {
    assert d.keys[..n + 1] == d.keys[..n] + [d.keys[n]];
  }

  lemma {:induction false} RebuildCut(d: Dict, n: nat)
    requires IsDict(d) && n <= |d.keys|
    ensures PutAll(PairsUpTo(d, n)) == Cut(d, n)
  {
    hide Put, PutAll, PairsOf, Values;
    if n == 0 {
      PutNothing();
    } else {
      RebuildCut(d, n - 1);
      var k := d.keys[n - 1];
      CutMore(d, n - 1);
      EntryFromValues(d, k);
      PutMany(PairsUpTo(d, n - 1), k, Values(d.at[k]));
    }
  }

  lemma {:induction false} PairsAreClean(pairs: seq<Pair>, n: nat)
    requires forall p <- pairs :: CleanPair(p)
    requires n <= |PutAll(pairs).keys|
    ensures forall p <- PairsUpTo(PutAll(pairs), n) :: CleanPair(p)
    decreases n
  {
    hide PutAll, CleanPair, ValuesFor;
    if n > 0 {
      var d := PutAll(pairs);
      PairsAreClean(pairs, n - 1);
      var k := d.keys[n - 1];
      PutAllMeaning(pairs, k);
      forall v | v in Values(d.at[k])
        ensures CleanPair((k, v))
      {
        ValueIsGiven(pairs, k, v);
      }
    }
  }

  lemma {:induction false} ValueIsGiven(pairs: seq<Pair>, k: string, v: string)
    requires v in ValuesFor(pairs, k)
    ensures (k, v) in pairs
  {
    var n := |pairs| - 1;
    if !(pairs[n].0 == k && pairs[n].1 == v) {
      ValueIsGiven(pairs[..n], k, v);
    }
  }

  lemma ItemReadBack(p: Pair)
    requires CleanPair(p)
    ensures ',' !in Item(p) && '=' in Item(p) && PairAt(Item(p)) == p
  {
    SplitOnceAt(p.0, p.1, '=');
    assert Item(p)[|p.0|] == '=';
  }

  lemma WholeCut(d: Dict)
    requires IsDict(d)
    ensures Cut(d, |d.keys|) == d
  {
    assert d.keys[..|d.keys|] == d.keys;
  }

  lemma SomethingPut(pairs: seq<Pair>)
    requires pairs != []
    ensures PutAll(pairs) != EMPTY
  {}

  /** Whatever clean pairs make up a dictionary, its text reads back as the same one. */
  lemma ReadsBack(pairs: seq<Pair>)
    requires pairs != [] && forall p <- pairs :: CleanPair(p)
    ensures var text := Serialised(PutAll(pairs));
            Readable(text) && PutAll(PairsIn(Split(text, ','))) == PutAll(pairs)
  {
    hide PutAll, Put, CleanPair, Split, Join, PairAt, Item, PairsUpTo;
    var d := PutAll(pairs);
    var out := Pairs(d);
    PairsAreClean(pairs, |d.keys|);
    RebuildCut(d, |d.keys|);
    WholeCut(d);
    SomethingPut(pairs);
    PutNothing();
    forall i | 0 <= i < |out|
      ensures ',' !in Items(out)[i] && '=' in Items(out)[i] && PairAt(Items(out)[i]) == out[i]
    {
      ItemReadBack(out[i]);
    }
    SplitUndoesJoin(Items(out), ',');
    assert PairsIn(Items(out)) == out;
  }

  /** What the client collects is what the broker reads. */
  lemma RoundTrip(values: seq<string>)
    requires values != [] && forall v <- values :: ',' !in v
    ensures var d := PutAll(Arguments(values));
            Readable(Serialised(d)) && PutAll(PairsIn(Split(Serialised(d), ','))) == d
  {
    var pairs := Arguments(values);
    forall i | 0 <= i < |pairs|
      ensures CleanPair(pairs[i])
    {
      assert values[i] in values;
    }
    ReadsBack(pairs);
  }

  /** Reading and writing once more changes nothing. */
  lemma ReadingIsStable(text: string)
    requires Readable(text)
    ensures var d := PutAll(PairsIn(Split(text, ',')));
            Readable(Serialised(d)) && PutAll(PairsIn(Split(Serialised(d), ','))) == d
  {
    var items := Split(text, ',');
    forall i | 0 <= i < |items|
      ensures CleanPair(PairAt(items[i]))
    {
      assert items[i] in items;
      var p := PairAt(items[i]);
      assert items[i] == p.0 + "=" + p.1;
    }
    ReadsBack(PairsIn(items));
  }

  // Why commas are refused.

  ghost function SizeUpTo(d: Dict, n: nat): nat
    requires n <= |d.keys| && forall k <- d.keys :: k in d.at
  {
    if n == 0 then 0 else SizeUpTo(d, n - 1) + |Values(d.at[d.keys[n - 1]])|
  }

  lemma PutKeys(d: Dict, k: string, v: string)
    ensures Put(d, k, v).keys == if k in d.at then d.keys else d.keys + [k]
  {}

  lemma {:induction false} SizeAfterPut(d: Dict, k: string, v: string, n: nat)
    requires IsDict(d) && n <= |d.keys|
    ensures n <= |Put(d, k, v).keys| && SizeUpTo(Put(d, k, v), n) == SizeUpTo(d, n) + if Among(d.keys, n, k) then 1 else 0
  {
    hide Put, Values, Among, SizeUpTo, IsDict;
    PutKeys(d, k, v);
    KeysAreThere(d);
    KeysAreThere(Put(d, k, v));
    if n == 0 {
      AmongNext(d.keys, k);
      SizeOfNone(d);
      SizeOfNone(Put(d, k, v));
    } else {
      SizeAfterPut(d, k, v, n - 1);
      SizeStep(d, n);
      SizeStep(Put(d, k, v), n);
      AmongStep(d, k, n);
      PutOneValue(d, k, v, d.keys[n - 1]);
    }
  }

  lemma KeysAreThere(d: Dict)
    requires IsDict(d)
    ensures forall k <- d.keys :: k in d.at
  {}

  lemma PutOneValue(d: Dict, k: string, v: string, w: string)
    requires w in d.at
    ensures w in Put(d, k, v).at && |Values(Put(d, k, v).at[w])| == |Values(d.at[w])| + if w == k then 1 else 0
  {}

  lemma SizeOfNone(d: Dict)
    requires forall k <- d.keys :: k in d.at
    ensures SizeUpTo(d, 0) == 0
  {}

  ghost predicate Among(keys: seq<string>, n: nat, k: string) {
    n <= |keys| && k in keys[..n]
  }

  lemma AmongNext(keys: seq<string>, k: string)
    ensures !Among(keys, 0, k) && (Among(keys, |keys|, k) <==> k in keys)
  {
    assert keys[..|keys|] == keys;
  }

  lemma AmongStep(d: Dict, k: string, n: nat)
    requires IsDict(d) && 0 < n <= |d.keys|
    ensures Among(d.keys, n, k) <==> Among(d.keys, n - 1, k) || d.keys[n - 1] == k
    ensures !(Among(d.keys, n - 1, k) && d.keys[n - 1] == k)
  {
    assert d.keys[..n] == d.keys[..n - 1] + [d.keys[n - 1]];
  }

  lemma SizeStep(d: Dict, n: nat)
    requires 0 < n <= |d.keys| && forall k <- d.keys :: k in d.at
    ensures SizeUpTo(d, n) == SizeUpTo(d, n - 1) + |Values(d.at[d.keys[n - 1]])|
  {}

  lemma PutSize(d: Dict, k: string, v: string)
    requires IsDict(d)
    ensures SizeUpTo(Put(d, k, v), |Put(d, k, v).keys|) == SizeUpTo(d, |d.keys|) + 1
  {
    hide Put, Among, SizeUpTo, Values;
    SizeAfterPut(d, k, v, |d.keys|);
    AmongNext(d.keys, k);
    PutKeys(d, k, v);
    if k !in d.at {
      SizeStep(Put(d, k, v), |d.keys| + 1);
    }
  }

  /** A dictionary holds as many values as were put into it. */
  lemma {:induction false} SizeIsNumberOfPairs(pairs: seq<Pair>)
    ensures SizeUpTo(PutAll(pairs), |PutAll(pairs).keys|) == |pairs|
  {
    if pairs != [] {
      hide Put, SizeUpTo;
      var front, last := pairs[..|pairs| - 1], pairs[|pairs| - 1];
      SizeIsNumberOfPairs(front);
      PutSize(PutAll(front), last.0, last.1);
    }
  }

  lemma {:induction false} PairsHaveSize(d: Dict, n: nat)
    requires IsDict(d) && n <= |d.keys|
    ensures |PairsUpTo(d, n)| == SizeUpTo(d, n)
  {
    if n > 0 {
      PairsHaveSize(d, n - 1);
    }
  }

  lemma {:induction false} EveryPairComesOut(pairs: seq<Pair>, i: nat)
    requires i < |pairs|
    ensures pairs[i] in Pairs(PutAll(pairs))
  {
    hide PutAll, ValuesFor, Values, PairsUpTo;
    var d := PutAll(pairs);
    PutAllMeaning(pairs, pairs[i].0);
    GivenIsValue(pairs, i);
    var n :| 0 <= n < |d.keys| && d.keys[n] == pairs[i].0;
    var j :| 0 <= j < |Values(d.at[d.keys[n]])| && Values(d.at[d.keys[n]])[j] == pairs[i].1;
    assert PairsOf(d.keys[n], Values(d.at[d.keys[n]]))[j] == pairs[i];
    PairsLast(d, n + 1, pairs[i]);
    PairsKeep(d, n + 1, |d.keys|, pairs[i]);
  }

  lemma PairsLast(d: Dict, n: nat, p: Pair)
    requires IsDict(d) && 0 < n <= |d.keys| && p in PairsOf(d.keys[n - 1], Values(d.at[d.keys[n - 1]]))
    ensures p in PairsUpTo(d, n)
  {
    hide PairsOf, Values;
  }

  lemma {:induction false} GivenIsValue(pairs: seq<Pair>, i: nat)
    requires i < |pairs|
    ensures pairs[i].1 in ValuesFor(pairs, pairs[i].0)
  {
    if i < |pairs| - 1 {
      GivenIsValue(pairs[..|pairs| - 1], i);
    }
  }

  lemma {:induction false} PairsKeep(d: Dict, n: nat, m: nat, p: Pair)
    requires IsDict(d) && n <= m <= |d.keys| && p in PairsUpTo(d, n)
    ensures p in PairsUpTo(d, m)
  {
    if n < m {
      PairsKeep(d, n, m - 1, p);
    }
  }

  /** With a comma in a key or a value the broker never reads the same dictionary, so
      refusing commas is exactly what is needed, and an empty dictionary does not come
      back either. */
  lemma ReadsBackOnlyWithoutCommas(pairs: seq<Pair>)
    requires forall p <- pairs :: '=' !in p.0
    ensures var text := Serialised(PutAll(pairs));
            (Readable(text) && PutAll(PairsIn(Split(text, ','))) == PutAll(pairs))
            <==> pairs != [] && forall p <- pairs :: ',' !in p.0 && ',' !in p.1
  {
    hide PutAll, Put, Split, Join, PairAt, Pairs, ValuesFor;
    var d := PutAll(pairs);
    var text, out := Serialised(d), Pairs(d);
    if pairs == [] {
      NothingToRead();
    } else if forall p <- pairs :: ',' !in p.0 && ',' !in p.1 {
      ReadsBack(pairs);
    } else {
      var i :| 0 <= i < |pairs| && !(',' !in pairs[i].0 && ',' !in pairs[i].1);
      EveryPairComesOut(pairs, i);
      OutHasSize(pairs);
      var j :| 0 <= j < |out| && out[j] == pairs[i];
      CommaInItem(out[j]);
      assert Items(out)[j] in Items(out);
      SplitGrows(Items(out), ',');
      if Readable(text) {
        SizeIsNumberOfPairs(PairsIn(Split(text, ',')));
        SizeIsNumberOfPairs(pairs);
      }
    }
  }

  lemma OutHasSize(pairs: seq<Pair>)
    ensures |Pairs(PutAll(pairs))| == |pairs|
  {
    SizeIsNumberOfPairs(pairs);
    PairsHaveSize(PutAll(pairs), |PutAll(pairs).keys|);
  }

  lemma CommaInItem(p: Pair)
    requires ',' in p.0 || ',' in p.1
    ensures ',' in Item(p)
  {
    assert Item(p) == p.0 + "=" + p.1;
  }

  lemma NothingToRead()
    ensures Serialised(PutAll([])) == "" && !Readable("")
  {
    assert "" in Split("", ',');
  }
}
