/*
 * Model of klog's internal/serialize/keyvalues.go: deduplication of
 * alternating key/value lists (TrimDuplicates) and their rendering into a
 * text buffer (KVListFormat).
 */
module Serialize {

  /** One element of a key/value list: a Go `interface{}` tagged by the
      dynamic type that decides how it is rendered. Identities (`id`) stand
      for values that compare by something other than their text, such as
      two distinct errors with the same message. */
  datatype Value =
    | Str(s: string)                   // a Go string
    | Err(id: nat, msg: string)        // an error; msg is what Error() returns
    | Bytes(b: seq<bv8>)               // a []byte
    | Stringer(id: nat, text: string)  // a fmt.Stringer; text is what String() returns
    | Nil                              // the nil interface
    | Other(id: nat)                   // any other value (numbers, structs, ...)

  /** Go's fmt verbs, which the model does not interpret: `quote` is %q of a
      string, `quoteASCII` is %+q of a []byte, `plain` is %+v of a value and
      `keyStr` is %s of a key. */
  datatype Printer = Printer(
    quote: string -> string,
    quoteASCII: seq<bv8> -> string,
    plain: Value -> string,
    keyStr: Value -> string)

  /** A key and the value paired with it. */
  datatype Pair = Pair(key: Value, value: Value)

  // ---------------------------------------------------------------------
  // Pair view of an alternating list
  // ---------------------------------------------------------------------

  /** The pairs of an alternating key/value list, in order; an unpaired
      trailing key is paired with `filler`. */
  function Pairs(kvs: seq<Value>, filler: Value): (ps: seq<Pair>)
    ensures |ps| == (|kvs| + 1) / 2
    decreases |kvs|
  {
    if |kvs| == 0 then []
    else if |kvs| == 1 then [Pair(kvs[0], filler)]
    else [Pair(kvs[0], kvs[1])] + Pairs(kvs[2..], filler)
  }

  /** Pair j holds the elements at 2j and 2j + 1, or the filler when the key
      at 2j is the last element. */
  lemma {:induction false} PairAt(kvs: seq<Value>, filler: Value, j: nat)
    requires j < (|kvs| + 1) / 2
    ensures Pairs(kvs, filler)[j] == Pair(kvs[2 * j], if 2 * j + 1 < |kvs| then kvs[2 * j + 1] else filler)
    decreases j
  {
    if j > 0 {
      PairAt(kvs[2..], filler, j - 1);
    }
  }

  /** The alternating list that holds the pairs `ps`. */
  function Flatten(ps: seq<Pair>): (kvs: seq<Value>)
    ensures |kvs| == 2 * |ps|
  {
    if ps == [] then [] else [ps[0].key, ps[0].value] + Flatten(ps[1..])
  }

  /** Splitting a flattened list into pairs gives the pairs back. */
  lemma {:induction false} PairsOfFlatten(ps: seq<Pair>, filler: Value)
    ensures Pairs(Flatten(ps), filler) == ps
  {
    if ps != [] {
      PairsOfFlatten(ps[1..], filler);
      assert Flatten(ps)[2..] == Flatten(ps[1..]);
    }
  }

  /** Flattening the pairs of a list gives the list back, with the filler
      appended when the list had an unpaired trailing key. */
  lemma {:induction false} FlattenOfPairs(kvs: seq<Value>, filler: Value)
    ensures Flatten(Pairs(kvs, filler)) == if |kvs| % 2 == 0 then kvs else kvs + [filler]
    decreases |kvs|
  {
    if |kvs| >= 2 {
      FlattenOfPairs(kvs[2..], filler);
      assert Pairs(kvs, filler)[1..] == Pairs(kvs[2..], filler);
      assert kvs == kvs[..2] + kvs[2..];
    }
  }

  /** The keys of a sequence of pairs. */
  function Keys(ps: seq<Pair>): set<Value>
  {
    set p | p in ps :: p.key
  }

  /** The keys of an alternating list: its elements at even positions. */
  function ListKeys(kvs: seq<Value>): set<Value>
  {
    Keys(Pairs(kvs, Nil))
  }

  /** The keys of a pair followed by more pairs. */
  lemma KeysCons(p: Pair, ps: seq<Pair>)
    ensures Keys([p] + ps) == {p.key} + Keys(ps)
  {
    assert forall q :: q in [p] + ps <==> q == p || q in ps;
  }

  /** No two pairs share a key. */
  predicate DistinctKeys(ps: seq<Pair>)
  {
    forall a, b :: 0 <= a < b < |ps| ==> ps[a].key != ps[b].key
  }

  /** `xs` is `ys` with some elements left out, the rest in the same order. */
  predicate IsSubsequence<T(==)>(xs: seq<T>, ys: seq<T>)
  {
    if ys == [] then xs == []
    else (xs != [] && xs[0] == ys[0] && IsSubsequence(xs[1..], ys[1..])) || IsSubsequence(xs, ys[1..])
  }

  // ---------------------------------------------------------------------
  // Deduplication: the declarative specification
  // ---------------------------------------------------------------------

  /** The pairs of `ps` whose key is neither in `claimed` nor the key of a
      later pair of `ps`, in their original order. */
  function Survivors(ps: seq<Pair>, claimed: set<Value>): (r: seq<Pair>)
    ensures |r| <= |ps|
  {
    if ps == [] then []
    else if ps[0].key in claimed || ps[0].key in Keys(ps[1..]) then Survivors(ps[1..], claimed)
    else [ps[0]] + Survivors(ps[1..], claimed)
  }

  /** The keys of the lists `lists[i..]`. */
  function KeysFrom(lists: seq<seq<Value>>, i: nat): set<Value>
    decreases |lists| - i
  {
    if i >= |lists| then {} else ListKeys(lists[i]) + KeysFrom(lists, i + 1)
  }

  /** What TrimDuplicates returns: list i keeps, in order, each pair whose key
      occurs neither later in list i nor in any later list; an unpaired
      trailing key is kept with a nil value. */
  function Trimmed(lists: seq<seq<Value>>): (outs: seq<seq<Value>>)
    ensures |outs| == |lists|
    ensures forall i :: 0 <= i < |lists| ==> |outs[i]| % 2 == 0
  {
    seq(|lists|, i requires 0 <= i < |lists| => TrimmedList(lists, i))
  }

  /** Output list i of TrimDuplicates. */
  function TrimmedList(lists: seq<seq<Value>>, i: nat): seq<Value>
    requires i < |lists|
  {
    Flatten(Survivors(Pairs(lists[i], Nil), KeysFrom(lists, i + 1)))
  }

  /** One backward step of the scan: pair j - 1 is kept exactly when its key
      is neither claimed nor held by a later pair, and its key joins the seen keys. */
  lemma SurvivorsStep(ps: seq<Pair>, j: nat, claimed: set<Value>)
    requires 0 < j <= |ps|
    ensures Flatten(Survivors(ps[j - 1..], claimed)) ==
      if ps[j - 1].key in claimed + Keys(ps[j..]) then Flatten(Survivors(ps[j..], claimed))
      else [ps[j - 1].key, ps[j - 1].value] + Flatten(Survivors(ps[j..], claimed))
    ensures claimed + Keys(ps[j - 1..]) == claimed + Keys(ps[j..]) + {ps[j - 1].key}
  {
    assert ps[j - 1..] == [ps[j - 1]] + ps[j..];
    KeysCons(ps[j - 1], ps[j..]);
    var rest := Survivors(ps[j..], claimed);
    assert ([ps[j - 1]] + rest)[1..] == rest;
  }

  /** The backward scan of `kvs` has processed the pairs from j on: `seen`
      holds the claimed keys and theirs, and `out` the survivors among them. */
  ghost predicate Scanned(kvs: seq<Value>, j: nat, claimed: set<Value>, seen: set<Value>, out: seq<Value>)
  {
    j <= |Pairs(kvs, Nil)| &&
    seen == claimed + Keys(Pairs(kvs, Nil)[j..]) &&
    out == Flatten(Survivors(Pairs(kvs, Nil)[j..], claimed))
  }

  /** A step of the backward scan that meets a key already seen changes nothing. */
  lemma ScanSkip(kvs: seq<Value>, j: nat, claimed: set<Value>, seen: set<Value>, out: seq<Value>)
    requires 0 < j && Scanned(kvs, j, claimed, seen, out)
    requires kvs[2 * j - 2] in seen
    ensures Scanned(kvs, j - 1, claimed, seen, out)
  {
    var ps := Pairs(kvs, Nil);
    PairAt(kvs, Nil, j - 1);
    SurvivorsStep(ps, j, claimed);
  }

  /** A step of the backward scan that meets a new key sees it and prepends
      its pair, with a nil value if the key is unpaired. */
  lemma ScanKeep(kvs: seq<Value>, j: nat, claimed: set<Value>, seen: set<Value>, out: seq<Value>)
    requires 0 < j && Scanned(kvs, j, claimed, seen, out)
    requires kvs[2 * j - 2] !in seen
    ensures Scanned(kvs, j - 1, claimed, seen + {kvs[2 * j - 2]},
      [kvs[2 * j - 2], if 2 * j - 1 < |kvs| then kvs[2 * j - 1] else Nil] + out)
  {
    var ps := Pairs(kvs, Nil);
    PairAt(kvs, Nil, j - 1);
    var q := ps[j - 1];
    assert q == Pair(kvs[2 * j - 2], if 2 * j - 1 < |kvs| then kvs[2 * j - 1] else Nil);
    assert ps[j - 1..] == [q] + ps[j..];
    KeysCons(q, ps[j..]);
    assert seen + {q.key} == claimed + Keys(ps[j - 1..]);
    assert q.key !in claimed + Keys(ps[j..]);
    SurvivorsStep(ps, j, claimed);
    assert Flatten(Survivors(ps[j - 1..], claimed)) == [q.key, q.value] + out;
  }

  /** Lists that agree with every output list of TrimDuplicates are its output. */
  lemma TrimmedByList(lists: seq<seq<Value>>, outs: seq<seq<Value>>)
    requires |outs| == |lists|
    requires forall l :: 0 <= l < |lists| ==> outs[l] == TrimmedList(lists, l)
    ensures outs == Trimmed(lists)
  {
  }

  /** Once list i is scanned, its output is complete and its keys are seen. */
  lemma ListDone(lists: seq<seq<Value>>, i: nat, claimed: set<Value>, seen: set<Value>, out: seq<Value>)
    requires i < |lists| && claimed == KeysFrom(lists, i + 1)
    requires out == Flatten(Survivors(Pairs(lists[i], Nil), claimed))
    requires seen == claimed + ListKeys(lists[i])
    ensures out == TrimmedList(lists, i) && seen == KeysFrom(lists, i)
  {
  }

  // ---------------------------------------------------------------------
  // Deduplication: the algorithm
  // ---------------------------------------------------------------------

  /** Deduplicates keys across `kvLists`, scanning the lists from last to
      first with one set of seen keys shared by all lists. */
  method TrimDuplicates(kvLists: seq<seq<Value>>) returns (outs: seq<seq<Value>>)
    ensures outs == Trimmed(kvLists)
  {
    var seenKeys: set<Value> := {};
    outs := seq(|kvLists|, _ => []);
    var i := |kvLists| - 1;
    while i >= 0
      invariant -1 <= i < |kvLists|
      invariant |outs| == |kvLists|
      invariant seenKeys == KeysFrom(kvLists, i + 1)
      invariant forall l :: i < l < |kvLists| ==> outs[l] == TrimmedList(kvLists, l)
      decreases i + 1
    {
      ghost var claimed := seenKeys;
      var out;
      out, seenKeys := ScanList(kvLists[i], seenKeys);
      ListDone(kvLists, i, claimed, seenKeys, out);
      outs := outs[i := out];
      i := i - 1;
    }
    TrimmedByList(kvLists, outs);
  }

  /** The inner loop of TrimDuplicates over one list: scans its pairs from
      last to first; a pair whose key is in `seenKeys` is dropped, any other
      is prepended to the output (with a nil value if the key is unpaired)
      and its key becomes seen. */
  method ScanList(kvList: seq<Value>, seenKeys: set<Value>) returns (out: seq<Value>, seen: set<Value>)
    ensures out == Flatten(Survivors(Pairs(kvList, Nil), seenKeys))
    ensures seen == seenKeys + ListKeys(kvList)
  {
    seen := seenKeys;
    out := [];
    ghost var j := (|kvList| + 1) / 2;
    var i2 := |kvList| - 2 + |kvList| % 2;
    while i2 >= 0
      invariant 0 <= j <= (|kvList| + 1) / 2 && i2 == 2 * j - 2
      invariant Scanned(kvList, j, seenKeys, seen, out)
    {
      var k := kvList[i2];
      if k !in seen {
        ScanKeep(kvList, j, seenKeys, seen, out);
        seen := seen + {k};
        var v := Nil;
        if i2 + 1 < |kvList| {
          v := kvList[i2 + 1];
        }
        out := [k, v] + out;
      } else {
        ScanSkip(kvList, j, seenKeys, seen, out);
      }
      i2 := i2 - 2;
      j := j - 1;
    }
    assert Pairs(kvList, Nil)[0..] == Pairs(kvList, Nil);
  }

  // ---------------------------------------------------------------------
  // Properties of one list's survivors
  // ---------------------------------------------------------------------

  /** A key survives exactly when the list holds it and it was not claimed. */
  lemma {:induction false} SurvivorKeys(ps: seq<Pair>, claimed: set<Value>)
    ensures Keys(Survivors(ps, claimed)) == Keys(ps) - claimed
  {
    if ps != [] {
      SurvivorKeys(ps[1..], claimed);
      assert ps == [ps[0]] + ps[1..];
      KeysCons(ps[0], ps[1..]);
      KeysCons(ps[0], Survivors(ps[1..], claimed));
    }
  }

  /** No two survivors share a key. */
  lemma {:induction false} SurvivorsDistinct(ps: seq<Pair>, claimed: set<Value>)
    ensures DistinctKeys(Survivors(ps, claimed))
  {
    if ps != [] {
      SurvivorsDistinct(ps[1..], claimed);
      SurvivorKeys(ps[1..], claimed);
      var rest := Survivors(ps[1..], claimed);
      if !(ps[0].key in claimed || ps[0].key in Keys(ps[1..])) {
        var s := [ps[0]] + rest;
        forall a, b | 0 <= a < b < |s| ensures s[a].key != s[b].key {
          assert s[b] == rest[b - 1] && rest[b - 1] in rest;
          assert s[b].key in Keys(rest);
          if a > 0 {
            assert s[a] == rest[a - 1];
          }
        }
      }
    }
  }

  /** The survivors are the pairs in their original order, some left out. */
  lemma {:induction false} SurvivorsInOrder(ps: seq<Pair>, claimed: set<Value>)
    ensures IsSubsequence(Survivors(ps, claimed), ps)
  {
    if ps != [] {
      SurvivorsInOrder(ps[1..], claimed);
      var s := Survivors(ps, claimed);
      if !(ps[0].key in claimed || ps[0].key in Keys(ps[1..])) {
        assert s[0] == ps[0] && s[1..] == Survivors(ps[1..], claimed);
      }
    }
  }

  /** Every survivor is the last pair of the list with its key, and its key
      was not claimed. */
  lemma {:induction false} SurvivorsAreLast(ps: seq<Pair>, claimed: set<Value>)
    ensures forall q :: q in Survivors(ps, claimed) ==>
      q.key !in claimed && exists j :: 0 <= j < |ps| && ps[j] == q && q.key !in Keys(ps[j + 1..])
  {
    if ps != [] {
      SurvivorsAreLast(ps[1..], claimed);
      forall q | q in Survivors(ps, claimed)
        ensures q.key !in claimed && exists j :: 0 <= j < |ps| && ps[j] == q && q.key !in Keys(ps[j + 1..])
      {
        if q in Survivors(ps[1..], claimed) {
          var j :| 0 <= j < |ps[1..]| && ps[1..][j] == q && q.key !in Keys(ps[1..][j + 1..]);
          assert ps[1..][j + 1..] == ps[j + 2..];
          assert ps[j + 1] == q;
        } else {
          assert q == ps[0] && ps[1..] == ps[0 + 1..];
        }
      }
    }
  }

  /** The last pair with an unclaimed key survives. */
  lemma {:induction false} LastSurvives(ps: seq<Pair>, claimed: set<Value>, j: nat)
    requires j < |ps|
    requires ps[j].key !in claimed && ps[j].key !in Keys(ps[j + 1..])
    ensures ps[j] in Survivors(ps, claimed)
  {
    if j == 0 {
      assert ps[1..] == ps[j + 1..];
    } else {
      assert ps[1..][j - 1] == ps[j] && ps[1..][j..] == ps[j + 1..];
      LastSurvives(ps[1..], claimed, j - 1);
    }
  }

  /** With distinct keys and none claimed, every pair survives. */
  lemma {:induction false} SurvivorsOfDistinct(ps: seq<Pair>, claimed: set<Value>)
    requires DistinctKeys(ps)
    requires Keys(ps) !! claimed
    ensures Survivors(ps, claimed) == ps
  {
    if ps != [] {
      assert ps[0] in ps;
      forall q | q in ps[1..] ensures q.key != ps[0].key {
        var b :| 0 <= b < |ps[1..]| && ps[1..][b] == q;
        assert ps[b + 1] == q;
      }
      assert Keys(ps[1..]) <= Keys(ps);
      SurvivorsOfDistinct(ps[1..], claimed);
    }
  }

  // ---------------------------------------------------------------------
  // Properties of TrimDuplicates over several lists
  // ---------------------------------------------------------------------

  /** The keys of output list i. */
  function TrimmedKeys(lists: seq<seq<Value>>, i: nat): set<Value>
    requires i < |lists|
  {
    ListKeys(Trimmed(lists)[i])
  }

  /** The pairs of output list i are the survivors of input list i. */
  lemma TrimmedPairs(lists: seq<seq<Value>>, i: nat)
    requires i < |lists|
    ensures Pairs(Trimmed(lists)[i], Nil) == Survivors(Pairs(lists[i], Nil), KeysFrom(lists, i + 1))
  {
    PairsOfFlatten(Survivors(Pairs(lists[i], Nil), KeysFrom(lists, i + 1)), Nil);
  }

  /** A key is among the keys of lists[i..] exactly when some list from i on holds it. */
  lemma {:induction false} KeysFromHolds(lists: seq<seq<Value>>, i: nat, k: Value)
    ensures k in KeysFrom(lists, i) <==> exists l :: i <= l < |lists| && k in ListKeys(lists[l])
    decreases |lists| - i
  {
    if i < |lists| {
      KeysFromHolds(lists, i + 1, k);
    }
  }

  /** Precedence: a key survives in output list i exactly when input list i
      holds it and no later list does. */
  lemma TrimmedKeyPlacement(lists: seq<seq<Value>>, i: nat, k: Value)
    requires i < |lists|
    ensures k in TrimmedKeys(lists, i) <==>
      k in ListKeys(lists[i]) && forall l :: i < l < |lists| ==> k !in ListKeys(lists[l])
  {
    TrimmedPairs(lists, i);
    SurvivorKeys(Pairs(lists[i], Nil), KeysFrom(lists, i + 1));
    KeysFromHolds(lists, i + 1, k);
  }

  /** Every key of every input list survives in exactly one output list: the
      highest-indexed list that holds it. */
  lemma {:induction false} TrimmedKeyHome(lists: seq<seq<Value>>, i: nat, k: Value)
    requires i < |lists| && k in ListKeys(lists[i])
    ensures exists l ::
      (i <= l < |lists| && k in TrimmedKeys(lists, l) &&
       forall l' :: 0 <= l' < |lists| && k in TrimmedKeys(lists, l') ==> l' == l)
    decreases |lists| - i
  {
    KeysFromHolds(lists, i + 1, k);
    if k in KeysFrom(lists, i + 1) {
      var l :| i + 1 <= l < |lists| && k in ListKeys(lists[l]);
      TrimmedKeyHome(lists, l, k);
    } else {
      TrimmedKeyPlacement(lists, i, k);
      forall l' | 0 <= l' < |lists| && k in TrimmedKeys(lists, l') ensures l' == i {
        TrimmedKeyPlacement(lists, l', k);
      }
    }
  }

  /** No key occurs twice across all output lists combined. */
  lemma TrimmedKeysUnique(lists: seq<seq<Value>>, i: nat, a: nat, i': nat, b: nat)
    requires i < |lists| && i' < |lists|
    requires a < |Pairs(Trimmed(lists)[i], Nil)| && b < |Pairs(Trimmed(lists)[i'], Nil)|
    requires Pairs(Trimmed(lists)[i], Nil)[a].key == Pairs(Trimmed(lists)[i'], Nil)[b].key
    ensures i == i' && a == b
  {
    var k := Pairs(Trimmed(lists)[i], Nil)[a].key;
    assert Pairs(Trimmed(lists)[i], Nil)[a] in Pairs(Trimmed(lists)[i], Nil);
    assert Pairs(Trimmed(lists)[i'], Nil)[b] in Pairs(Trimmed(lists)[i'], Nil);
    TrimmedKeyPlacement(lists, i, k);
    TrimmedKeyPlacement(lists, i', k);
    TrimmedPairs(lists, i);
    SurvivorsDistinct(Pairs(lists[i], Nil), KeysFrom(lists, i + 1));
  }

  /** Output list i keeps the surviving pairs of input list i in their input order. */
  lemma TrimmedInOrder(lists: seq<seq<Value>>, i: nat)
    requires i < |lists|
    ensures IsSubsequence(Pairs(Trimmed(lists)[i], Nil), Pairs(lists[i], Nil))
  {
    TrimmedPairs(lists, i);
    SurvivorsInOrder(Pairs(lists[i], Nil), KeysFrom(lists, i + 1));
  }

  /** Within list i, the pair kept for a key is its last occurrence in that
      list (provided no later list holds the key), and it is the only pair of
      output list i with that key. */
  lemma TrimmedLastValue(lists: seq<seq<Value>>, i: nat, j: nat)
    requires i < |lists| && j < |Pairs(lists[i], Nil)|
    requires Pairs(lists[i], Nil)[j].key !in Keys(Pairs(lists[i], Nil)[j + 1..])
    requires forall l :: i < l < |lists| ==> Pairs(lists[i], Nil)[j].key !in ListKeys(lists[l])
    ensures Pairs(lists[i], Nil)[j] in Pairs(Trimmed(lists)[i], Nil)
    ensures forall q :: q in Pairs(Trimmed(lists)[i], Nil) && q.key == Pairs(lists[i], Nil)[j].key ==>
      q == Pairs(lists[i], Nil)[j]
  {
    var ps := Pairs(lists[i], Nil);
    var claimed := KeysFrom(lists, i + 1);
    KeysFromHolds(lists, i + 1, ps[j].key);
    TrimmedPairs(lists, i);
    LastSurvives(ps, claimed, j);
    SurvivorsAreLast(ps, claimed);
    forall q | q in Survivors(ps, claimed) && q.key == ps[j].key ensures q == ps[j] {
      var j' :| 0 <= j' < |ps| && ps[j'] == q && q.key !in Keys(ps[j' + 1..]);
    }
  }

  /** The unpaired trailing key of an odd list that no later list holds is
      kept, paired with nil. */
  lemma TrimmedOddKey(lists: seq<seq<Value>>, i: nat)
    requires i < |lists| && |lists[i]| % 2 == 1
    requires forall l :: i < l < |lists| ==> lists[i][|lists[i]| - 1] !in ListKeys(lists[l])
    ensures Pair(lists[i][|lists[i]| - 1], Nil) in Pairs(Trimmed(lists)[i], Nil)
  {
    var ps := Pairs(lists[i], Nil);
    PairAt(lists[i], Nil, |ps| - 1);
    assert ps[|ps|..] == [];
    TrimmedLastValue(lists, i, |ps| - 1);
  }

  /** A single list with an even length and distinct keys comes back unchanged. */
  lemma TrimmedSingle(kvs: seq<Value>)
    requires |kvs| % 2 == 0 && DistinctKeys(Pairs(kvs, Nil))
    ensures Trimmed([kvs]) == [kvs]
  {
    SurvivorsOfDistinct(Pairs(kvs, Nil), {});
    FlattenOfPairs(kvs, Nil);
    assert KeysFrom([kvs], 1) == {};
  }

  // ---------------------------------------------------------------------
  // Formatting
  // ---------------------------------------------------------------------

  /** The placeholder written for a trailing key that has no value. */
  const MissingValue: Value := Str("(MISSING)")

  /** The text of a value, chosen by its dynamic type: strings, errors and
      Stringers are quoted, byte slices quoted with non-ASCII escaped, and
      anything else written with the default format. */
  function RenderValue(v: Value, p: Printer): (r: string)
    ensures v.Str? ==> r == p.quote(v.s)
    ensures v.Err? ==> r == p.quote(v.msg)
    ensures v.Stringer? ==> r == p.quote(v.text)
    ensures v.Bytes? ==> r == p.quoteASCII(v.b)
    ensures v.Nil? || v.Other? ==> r == p.plain(v)
  {
    match v
    case Str(s) => p.quote(s)
    case Err(_, msg) => p.quote(msg)
    case Bytes(b) => p.quoteASCII(b)
    case Stringer(_, text) => p.quote(text)
    case Nil => p.plain(v)
    case Other(_) => p.plain(v)
  }

  /** One field: a space, the key, `=` and the rendered value. */
  function Field(k: Value, v: Value, p: Printer): string
  {
    [' '] + p.keyStr(k) + "=" + RenderValue(v, p)
  }

  /** The text KVListFormat appends for `kvs`. */
  function Rendered(kvs: seq<Value>, p: Printer): (r: string)
    ensures r == [] <==> kvs == []
    ensures kvs != [] ==> r[0] == ' '
    decreases |kvs|
  {
    if |kvs| == 0 then []
    else if |kvs| == 1 then Field(kvs[0], MissingValue, p)
    else Field(kvs[0], kvs[1], p) + Rendered(kvs[2..], p)
  }

  /** The fields of a sequence of pairs, one after the other. */
  function RenderPairs(ps: seq<Pair>, p: Printer): string
  {
    if ps == [] then [] else Field(ps[0].key, ps[0].value, p) + RenderPairs(ps[1..], p)
  }

  /** Rendering writes one field per pair, ceil(n/2) of them, and a
      trailing key without value gets the quoted placeholder. */
  lemma {:induction false} RenderedAsPairs(kvs: seq<Value>, p: Printer)
    ensures Rendered(kvs, p) == RenderPairs(Pairs(kvs, MissingValue), p)
    decreases |kvs|
  {
    if |kvs| >= 2 {
      RenderedAsPairs(kvs[2..], p);
      assert Pairs(kvs, MissingValue)[1..] == Pairs(kvs[2..], MissingValue);
    }
  }

  /** Rendering a flattened list renders its pairs; no placeholder appears. */
  lemma {:induction false} RenderedFlatten(ps: seq<Pair>, p: Printer)
    ensures Rendered(Flatten(ps), p) == RenderPairs(ps, p)
  {
    if ps != [] {
      RenderedFlatten(ps[1..], p);
      assert Flatten(ps)[2..] == Flatten(ps[1..]);
    }
  }

  /** Rendering two lists one after the other is rendering their
      concatenation, when the first has no unpaired key. */
  lemma {:induction false} RenderedAppend(a: seq<Value>, b: seq<Value>, p: Printer)
    requires |a| % 2 == 0
    ensures Rendered(a + b, p) == Rendered(a, p) + Rendered(b, p)
    decreases |a|
  {
    if |a| > 0 {
      RenderedAppend(a[2..], b, p);
      assert (a + b)[2..] == a[2..] + b;
    } else {
      assert a + b == b;
    }
  }

  /** An odd-length list is an even list followed by a trailing key: the
      pairs before that key are rendered as usual and the key gets the
      placeholder, which is a string and so is quoted. */
  lemma TrailingKeyRendering(pairs: seq<Value>, key: Value, p: Printer)
    requires |pairs| % 2 == 0
    ensures Rendered(pairs + [key], p) == Rendered(pairs, p) + Field(key, MissingValue, p)
    ensures Field(key, MissingValue, p) == [' '] + p.keyStr(key) + "=" + p.quote("(MISSING)")
  {
    RenderedAppend(pairs, [key], p);
  }

  /** The pairs of an even list followed by one more key: that key is the
      last pair, with the filler. */
  lemma {:induction false} PairsSnocKey(pairs: seq<Value>, key: Value, filler: Value)
    requires |pairs| % 2 == 0
    ensures Pairs(pairs + [key], filler) == Pairs(pairs, filler) + [Pair(key, filler)]
    decreases |pairs|
  {
    if pairs == [] {
      assert pairs + [key] == [key];
    } else {
      assert |pairs| >= 2;
      assert (pairs + [key])[2..] == pairs[2..] + [key];
      PairsSnocKey(pairs[2..], key, filler);
    }
  }

  /** The keys of pairs followed by one more pair. */
  lemma KeysSnoc(ps: seq<Pair>, q: Pair)
    ensures Keys(ps + [q]) == Keys(ps) + {q.key}
  {
    assert forall r :: r in ps + [q] <==> r in ps || r == q;
  }

  /** The last pair of a list survives when its key is unclaimed, and it
      claims its key against every earlier pair. */
  lemma {:induction false} SurvivorsSnoc(ps: seq<Pair>, q: Pair, claimed: set<Value>)
    requires q.key !in claimed
    ensures Survivors(ps + [q], claimed) == Survivors(ps, claimed + {q.key}) + [q]
    decreases |ps|
  {
    if ps == [] {
      assert [] + [q] == [q];
      assert Keys([q][1..]) == {};
    } else {
      assert (ps + [q])[1..] == ps[1..] + [q];
      SurvivorsSnoc(ps[1..], q, claimed);
      KeysSnoc(ps[1..], q);
    }
  }

  /** Flattening pairs followed by one more pair appends its key and value. */
  lemma {:induction false} FlattenSnoc(ps: seq<Pair>, q: Pair)
    ensures Flatten(ps + [q]) == Flatten(ps) + [q.key, q.value]
    decreases |ps|
  {
    if ps != [] {
      assert (ps + [q])[1..] == ps[1..] + [q];
      FlattenSnoc(ps[1..], q);
    } else {
      assert [] + [q] == [q];
    }
  }

  /** Rendering pairs followed by one more pair appends its field. */
  lemma {:induction false} RenderPairsSnoc(ps: seq<Pair>, q: Pair, p: Printer)
    ensures RenderPairs(ps + [q], p) == RenderPairs(ps, p) + Field(q.key, q.value, p)
    decreases |ps|
  {
    if ps != [] {
      assert (ps + [q])[1..] == ps[1..] + [q];
      RenderPairsSnoc(ps[1..], q, p);
    } else {
      assert [] + [q] == [q];
    }
  }

  /** After deduplication, the trailing key of an odd list that no later list
      holds is the last pair of its output list, and it is written with a nil
      value rather than the placeholder. */
  lemma TrimmedTrailingKeyRendering(lists: seq<seq<Value>>, i: nat, pairs: seq<Value>, key: Value, p: Printer)
    requires i < |lists| && lists[i] == pairs + [key] && |pairs| % 2 == 0
    requires forall l :: i < l < |lists| ==> key !in ListKeys(lists[l])
    ensures |Trimmed(lists)[i]| >= 2
    ensures Trimmed(lists)[i][|Trimmed(lists)[i]| - 2..] == [key, Nil]
    ensures Rendered(Trimmed(lists)[i], p) ==
      Rendered(Trimmed(lists)[i][..|Trimmed(lists)[i]| - 2], p) + Field(key, Nil, p)
  {
    var claimed := KeysFrom(lists, i + 1);
    KeysFromHolds(lists, i + 1, key);
    PairsSnocKey(pairs, key, Nil);
    var q := Pair(key, Nil);
    SurvivorsSnoc(Pairs(pairs, Nil), q, claimed);
    var kept := Survivors(Pairs(pairs, Nil), claimed + {key});
    FlattenSnoc(kept, q);
    var t := Trimmed(lists)[i];
    assert t == TrimmedList(lists, i) == Flatten(kept) + [key, Nil];
    assert t[..|t| - 2] == Flatten(kept);
    RenderedFlatten(kept + [q], p);
    RenderedFlatten(kept, p);
    RenderPairsSnoc(kept, q, p);
  }

  /** After deduplication an unpaired trailing key is rendered with a nil
      value, while rendering the list directly gives it the placeholder. */
  lemma OddKeyRendering(a: Value, v: Value, b: Value, p: Printer)
    requires a != b
    ensures Rendered(Trimmed([[a, v, b]])[0], p) == Field(a, v, p) + Field(b, Nil, p)
    ensures Rendered([a, v, b], p) == Field(a, v, p) + Field(b, MissingValue, p)
  {
    var ps := Pairs([a, v, b], Nil);
    assert [a, v, b][2..] == [b];
    assert Pairs([b], Nil) == [Pair(b, Nil)];
    assert ps == [Pair(a, v), Pair(b, Nil)];
    assert KeysFrom([[a, v, b]], 1) == {};
    assert Keys(ps[1..]) == {b};
    assert Keys(ps[2..]) == {};
    SurvivorsOfDistinct(ps, {});
    RenderedFlatten(ps, p);
    assert [a, v, b][2..] == [b];
  }

  // ---------------------------------------------------------------------
  // The buffer KVListFormat appends to
  // ---------------------------------------------------------------------

  /** A growable text buffer (Go's bytes.Buffer), written to in place. */
  class Buffer {
    var text: string

    constructor ()
      ensures text == []
    {
      text := [];
    }

    method WriteByte(c: char)
      modifies this
      ensures text == old(text) + [c]
    {
      text := text + [c];
    }

    method WriteString(s: string)
      modifies this
      ensures text == old(text) + s
    {
      text := text + s;
    }

    method Len() returns (n: nat)
      ensures n == |text|
    {
      n := |text|;
    }
  }

  /** The part of `kvs` from position i on (empty past the end). */
  function Unwritten(kvs: seq<Value>, i: nat): seq<Value>
  {
    if i < |kvs| then kvs[i..] else []
  }

  /** Writing a space and then the text of one field appends that field. */
  lemma WrittenField(before: string, k: Value, v: Value, field: string, after: string, rest: seq<Value>, p: Printer)
    requires field == p.keyStr(k) + "=" + RenderValue(v, p)
    requires after == before + [' '] + field
    ensures after + Rendered(rest, p) == before + (Field(k, v, p) + Rendered(rest, p))
  {
  }

  /** The fields still to be written from position i: the one for the pair
      at i, then the rest. */
  lemma RenderedStep(kvs: seq<Value>, i: nat, p: Printer)
    requires i < |kvs|
    ensures Rendered(Unwritten(kvs, i), p) ==
      Field(kvs[i], if i + 1 < |kvs| then kvs[i + 1] else MissingValue, p) +
      Rendered(Unwritten(kvs, i + 2), p)
  {
    if i + 2 <= |kvs| {
      assert kvs[i..][2..] == kvs[i + 2..];
    }
  }

  /** Appends ` key=value` to `b` for each pair of `keysAndValues`; the
      existing contents are kept. */
  method KVListFormat(b: Buffer, keysAndValues: seq<Value>, p: Printer)
    modifies b
    ensures b.text == old(b.text) + Rendered(keysAndValues, p)
  {
    ghost var start := b.text;
    var i := 0;
    while i < |keysAndValues|
      invariant 0 <= i <= |keysAndValues| + 1 && i % 2 == 0
      invariant b.text + Rendered(Unwritten(keysAndValues, i), p) == start + Rendered(keysAndValues, p)
      decreases |keysAndValues| + 1 - i
    {
      var v: Value;
      var k := keysAndValues[i];
      if i + 1 < |keysAndValues| {
        v := keysAndValues[i + 1];
      } else {
        v := MissingValue;
      }
      ghost var before := b.text;
      b.WriteByte(' ');
      var field :=
        match v
        case Str(s) => p.keyStr(k) + "=" + p.quote(s)
        case Err(_, msg) => p.keyStr(k) + "=" + p.quote(msg)
        case Bytes(bs) => p.keyStr(k) + "=" + p.quoteASCII(bs)
        case Stringer(_, text) => p.keyStr(k) + "=" + p.quote(text)
        case _ => p.keyStr(k) + "=" + p.plain(v);
      b.WriteString(field);
      WrittenField(before, k, v, field, b.text, Unwritten(keysAndValues, i + 2), p);
      RenderedStep(keysAndValues, i, p);
      i := i + 2;
    }
  }
}
