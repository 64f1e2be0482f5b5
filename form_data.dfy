/**
 * Form-body parsing of the gateway service: an
 * application/x-www-form-urlencoded body becomes an ordered multimap (a
 * LinkedMultiValueMap, whose keys are compared exactly) from keys to the
 * values given for them, in order. Nothing is percent-decoded.
 */
module FormData {
  import opened Wrappers
  import opened JavaStrings

  datatype Field = Field(key: string, values: seq<string>)

  type Form = seq<Field>

  predicate DistinctKeys(f: Form) {
    forall i, j :: 0 <= i < j < |f| ==> f[i].key != f[j].key
  }

  /** Position of the entry for `key`, or -1. */
  function IndexOf(f: Form, key: string): (r: int)
    ensures -1 <= r < |f|
    ensures r >= 0 ==> f[r].key == key
    ensures r < 0 <==> forall k :: 0 <= k < |f| ==> f[k].key != key
    decreases |f|
  {
    if f == [] then -1
    else if f[0].key == key then 0
    else
      var k := IndexOf(f[1..], key);
      if k < 0 then -1 else k + 1
  }

  /** `get(key)`; None stands for null. */
  function Lookup(f: Form, key: string): Option<seq<string>> {
    var i := IndexOf(f, key);
    if i < 0 then None else Some(f[i].values)
  }

  /** `add(key, value)`: appended to the key's list, which is created at the end when missing. */
  function FormAdd(f: Form, key: string, value: string): Form {
    var i := IndexOf(f, key);
    if i < 0 then f + [Field(key, [value])]
    else f[i := Field(key, f[i].values + [value])]
  }

  /** The key and value one non-empty pair contributes: split at the first '=', "" when there is none. */
  function PairOf(piece: string): (string, string) {
    var kv := SplitFirst(piece, '=');
    if |kv| == 2 then (kv[0], kv[1]) else (kv[0], "")
  }

  /** The pairs of a list of pieces, empty pieces skipped. */
  function Pairs(pieces: seq<string>): seq<(string, string)>
    decreases |pieces|
  {
    if pieces == [] then []
    else if pieces[0] == [] then Pairs(pieces[1..])
    else [PairOf(pieces[0])] + Pairs(pieces[1..])
  }

  /** Adds the pairs in order. */
  function AddPairs(f: Form, pairs: seq<(string, string)>): Form
    decreases |pairs|
  {
    if pairs == [] then f else AddPairs(FormAdd(f, pairs[0].0, pairs[0].1), pairs[1..])
  }

  /** The multimap `parseFormData` builds from a body; None stands for null. */
  function FormOf(body: Option<string>): Form {
    if body.None? || body.value == [] then []
    else AddPairs([], Pairs(JavaSplit(body.value, '&')))
  }

  /** `parseFormData` */
  method ParseFormData(body: Option<string>) returns (form: Form)
    ensures form == FormOf(body)
  {
    form := [];
    if body.None? || body.value == [] {
      return;
    }
    var pairs := JavaSplit(body.value, '&');
    var i := 0;
    while i < |pairs|
      invariant 0 <= i <= |pairs|
      invariant AddPairs(form, Pairs(pairs[i..])) == FormOf(body)
    {
      var pair := pairs[i];
      assert pairs[i..][1..] == pairs[i + 1..];
      if pair != [] {
        var keyValue := SplitFirst(pair, '=');
        if |keyValue| == 2 {
          form := FormAdd(form, keyValue[0], keyValue[1]);
        } else {
          form := FormAdd(form, keyValue[0], "");
        }
      }
      i := i + 1;
    }
  }

  // ---------------------------------------------------------------------------
  // Properties

  /** The values given for `key`, in order. */
  function ValuesFor(pairs: seq<(string, string)>, key: string): seq<string>
    decreases |pairs|
  {
    if pairs == [] then []
    else (if pairs[0].0 == key then [pairs[0].1] else []) + ValuesFor(pairs[1..], key)
  }

  /** The entry for a key once further values were appended to it. */
  function Extend(current: Option<seq<string>>, more: seq<string>): Option<seq<string>> {
    if current.None? && more == [] then None else Some(current.GetOr([]) + more)
  }

  lemma FormAddLookup(f: Form, key: string, value: string, m: string)
    requires DistinctKeys(f)
    ensures DistinctKeys(FormAdd(f, key, value))
    ensures Lookup(FormAdd(f, key, value), m) == if m == key then Some(Lookup(f, m).GetOr([]) + [value]) else Lookup(f, m)
  {
    var i := IndexOf(f, key);
    var r := FormAdd(f, key, value);
    if i < 0 {
      assert [] + [value] == [value];
      assert IndexOf(r, m) == (if m == key then |f| else IndexOf(f, m)) by {
        if m != key && IndexOf(f, m) >= 0 {
          assert forall k :: 0 <= k < IndexOf(f, m) ==> f[k].key != m by {
            forall k | 0 <= k < IndexOf(f, m) ensures f[k].key != m {
              IndexOfFirst(f, m, k);
            }
          }
          IndexOfBy(r, m, IndexOf(f, m));
        } else if m == key {
          IndexOfBy(r, m, |f|);
        }
      }
    } else {
      assert forall k :: 0 <= k < |r| ==> r[k].key == f[k].key;
      IndexOfSameKeys(f, r, m);
    }
  }

  /** Nothing before the first index carries the key. */
  lemma {:induction false} IndexOfFirst(f: Form, key: string, k: int)
    requires IndexOf(f, key) >= 0 && 0 <= k < IndexOf(f, key)
    ensures f[k].key != key
    decreases |f|
  {
    if k > 0 {
      IndexOfFirst(f[1..], key, k - 1);
    }
  }

  /** The first index holding the key is the one IndexOf finds. */
  lemma {:induction false} IndexOfBy(f: Form, key: string, i: int)
    requires 0 <= i < |f| && f[i].key == key
    requires forall k :: 0 <= k < i ==> f[k].key != key
    ensures IndexOf(f, key) == i
    decreases |f|
  {
    if i > 0 {
      IndexOfBy(f[1..], key, i - 1);
    }
  }

  lemma {:induction false} IndexOfSameKeys(f: Form, g: Form, key: string)
    requires |f| == |g| && forall k :: 0 <= k < |f| ==> f[k].key == g[k].key
    ensures IndexOf(f, key) == IndexOf(g, key)
    decreases |f|
  {
    if f != [] {
      IndexOfSameKeys(f[1..], g[1..], key);
    }
  }

  /** Adding pairs keeps keys distinct and appends each key's values in order. */
  lemma {:induction false} AddPairsLookup(f: Form, pairs: seq<(string, string)>, m: string)
    requires DistinctKeys(f)
    ensures DistinctKeys(AddPairs(f, pairs))
    ensures Lookup(AddPairs(f, pairs), m) == Extend(Lookup(f, m), ValuesFor(pairs, m))
    decreases |pairs|
  {
    var current := Lookup(f, m);
    if pairs == [] {
      ExtendNothing(current);
    } else {
      var g := FormAdd(f, pairs[0].0, pairs[0].1);
      FormAddLookup(f, pairs[0].0, pairs[0].1, m);
      AddPairsLookup(g, pairs[1..], m);
      var rest := ValuesFor(pairs[1..], m);
      if pairs[0].0 == m {
        assert ValuesFor(pairs, m) == [pairs[0].1] + rest;
        ExtendOne(current, pairs[0].1, rest);
      } else {
        assert ValuesFor(pairs, m) == rest;
      }
    }
  }

  lemma ExtendNothing(current: Option<seq<string>>)
    ensures Extend(current, []) == current
  {
    if current.Some? {
      assert current.value + [] == current.value;
    }
  }

  lemma ExtendOne(current: Option<seq<string>>, v: string, rest: seq<string>)
    ensures Extend(Some(current.GetOr([]) + [v]), rest) == Extend(current, [v] + rest)
  {
    assert current.GetOr([]) + [v] + rest == current.GetOr([]) + ([v] + rest);
  }

  /** The pairs a body contributes, in order. */
  function BodyPairs(body: Option<string>): seq<(string, string)> {
    if body.None? || body.value == [] then [] else Pairs(JavaSplit(body.value, '&'))
  }

  /**
   * The parsed form has one entry per distinct key, holding every value given
   * for that key in the order the pairs appear; a key never given is absent.
   */
  lemma FormOfLookup(body: Option<string>, key: string)
    ensures DistinctKeys(FormOf(body))
    ensures Lookup(FormOf(body), key) == if ValuesFor(BodyPairs(body), key) == [] then None else Some(ValuesFor(BodyPairs(body), key))
  {
    if body.Some? && body.value != [] {
      AddPairsLookup([], BodyPairs(body), key);
      assert [] + ValuesFor(BodyPairs(body), key) == ValuesFor(BodyPairs(body), key);
    }
  }

  lemma {:induction false} PairsDropTrailingEmpty(pieces: seq<string>)
    ensures Pairs(DropTrailingEmpty(pieces)) == Pairs(pieces)
    decreases |pieces|
  {
    if pieces != [] && pieces[|pieces| - 1] == [] {
      var init := pieces[..|pieces| - 1];
      PairsDropTrailingEmpty(init);
      PairsAppendEmpty(init);
      assert init + [[]] == pieces;
    }
  }

  lemma {:induction false} PairsAppendEmpty(pieces: seq<string>)
    ensures Pairs(pieces + [[]]) == Pairs(pieces)
    decreases |pieces|
  {
    if pieces == [] {
      assert Pairs([[]]) == Pairs([]);
    } else {
      assert (pieces + [[]])[1..] == pieces[1..] + [[]];
      PairsAppendEmpty(pieces[1..]);
    }
  }

  /** Dropping trailing empty pieces does not matter: every piece between '&'s is looked at. */
  lemma BodyPairsAllPieces(s: string)
    requires s != []
    ensures BodyPairs(Some(s)) == Pairs(SplitAll(s, '&'))
  {
    if '&' !in s {
      assert IndexOfChar(s, '&') == -1;
    } else {
      PairsDropTrailingEmpty(SplitAll(s, '&'));
    }
  }

  // ---------------------------------------------------------------------------
  // Round trip

  function EncodePair(p: (string, string)): string {
    p.0 + "=" + p.1
  }

  function EncodePieces(pairs: seq<(string, string)>): (r: seq<string>)
    ensures |r| == |pairs|
  {
    if pairs == [] then [] else [EncodePair(pairs[0])] + EncodePieces(pairs[1..])
  }

  /** A body for the pairs: each written "key=value", joined with '&'. */
  function Encode(pairs: seq<(string, string)>): string
    requires pairs != []
  {
    Join(EncodePieces(pairs), '&')
  }

  predicate Encodable(pairs: seq<(string, string)>) {
    forall i :: 0 <= i < |pairs| ==> '&' !in pairs[i].0 && '=' !in pairs[i].0 && '&' !in pairs[i].1
  }

  lemma {:induction false} EncodePiecesSpec(pairs: seq<(string, string)>)
    requires Encodable(pairs)
    ensures forall k :: 0 <= k < |pairs| ==> '&' !in EncodePieces(pairs)[k] && EncodePieces(pairs)[k] != []
    ensures Pairs(EncodePieces(pairs)) == pairs
    decreases |pairs|
  {
    if pairs != [] {
      var p := pairs[0];
      assert EncodePair(p) == p.0 + ['='] + p.1;
      SplitFirstUnique(p.0, '=', p.1);
      assert EncodePair(p)[|p.0|] == '=';
      EncodePiecesSpec(pairs[1..]);
    }
  }

  /**
   * Writing pairs whose keys hold no '&' or '=' and whose values hold no '&'
   * as "k=v&..." and parsing the result gives those pairs back, so every key
   * maps to its values in order.
   */
  lemma EncodeRoundTrip(pairs: seq<(string, string)>, key: string)
    requires pairs != [] && Encodable(pairs)
    ensures BodyPairs(Some(Encode(pairs))) == pairs
    ensures Lookup(FormOf(Some(Encode(pairs))), key) == if ValuesFor(pairs, key) == [] then None else Some(ValuesFor(pairs, key))
  {
    var pieces := EncodePieces(pairs);
    EncodePiecesSpec(pairs);
    SplitAllJoin(pieces, '&');
    assert |Encode(pairs)| > 0 by { JoinNonEmpty(pieces, '&'); }
    BodyPairsAllPieces(Encode(pairs));
    FormOfLookup(Some(Encode(pairs)), key);
  }

  lemma {:induction false} JoinNonEmpty(pieces: seq<string>, sep: char)
    requires |pieces| >= 1 && pieces[0] != []
    ensures |Join(pieces, sep)| > 0
  {
  }

  // ---------------------------------------------------------------------------
  // Worked cases

  /** A pair with no '=' maps its key to ""; a second '=' stays in the value; nothing is decoded. */
  lemma PairExamples()
    ensures PairOf("flag") == ("flag", "")
    ensures PairOf("k=v=w") == ("k", "v=w")
    ensures PairOf("=v") == ("", "v")
    ensures PairOf("a%20b=c+d") == ("a%20b", "c+d")
  {
    assert "flag" == "flag" + [] && IndexOfChar("flag", '=') == -1;
    SplitFirstUnique("k", '=', "v=w");
    assert "k=v=w" == "k" + ['='] + "v=w";
    SplitFirstUnique("", '=', "v");
    assert "=v" == "" + ['='] + "v";
    SplitFirstUnique("a%20b", '=', "c+d");
    assert "a%20b=c+d" == "a%20b" + ['='] + "c+d";
  }

  /** Empty pairs are skipped and a repeated key collects its values in order. */
  lemma RepeatedKeyExample()
    ensures var f := FormOf(Some("a=1&&b=2&a=3&"));
            Lookup(f, "a") == Some(["1", "3"]) && Lookup(f, "b") == Some(["2"]) && Lookup(f, "c") == None
  {
    var s := "a=1&&b=2&a=3&";
    ExampleBodyPairs();
    ExampleValues();
    FormOfLookup(Some(s), "a");
    FormOfLookup(Some(s), "b");
    FormOfLookup(Some(s), "c");
  }

  lemma ExampleValues()
    ensures var pairs := [("a", "1"), ("b", "2"), ("a", "3")];
            ValuesFor(pairs, "a") == ["1", "3"] && ValuesFor(pairs, "b") == ["2"] && ValuesFor(pairs, "c") == []
  {
    var pairs := [("a", "1"), ("b", "2"), ("a", "3")];
    assert pairs[1..] == [("b", "2"), ("a", "3")] && pairs[2..] == [("a", "3")] && pairs[3..] == [];
  }

  lemma ExampleBodyPairs()
    ensures BodyPairs(Some("a=1&&b=2&a=3&")) == [("a", "1"), ("b", "2"), ("a", "3")]
  {
    var pieces := ["a=1", "", "b=2", "a=3", ""];
    ExampleJoin();
    ExamplePairs();
    SplitAllJoin(pieces, '&');
    BodyPairsAllPieces(Join(pieces, '&'));
  }

  lemma ExampleJoin()
    ensures Join(["a=1", "", "b=2", "a=3", ""], '&') == "a=1&&b=2&a=3&"
  {
    var pieces := ["a=1", "", "b=2", "a=3", ""];
    assert pieces[4..] == [""];
    assert Join(pieces[4..], '&') == "";
    assert pieces[3..] == ["a=3", ""];
    assert Join(pieces[3..], '&') == "a=3&";
    assert pieces[2..] == ["b=2", "a=3", ""];
    assert Join(pieces[2..], '&') == "b=2&a=3&";
    assert pieces[1..] == ["", "b=2", "a=3", ""];
    assert Join(pieces[1..], '&') == "&b=2&a=3&";
  }

  lemma ExamplePairs()
    ensures Pairs(["a=1", "", "b=2", "a=3", ""]) == [("a", "1"), ("b", "2"), ("a", "3")]
  {
    var pieces := ["a=1", "", "b=2", "a=3", ""];
    PairOfExact("a", "1");
    PairOfExact("b", "2");
    PairOfExact("a", "3");
    assert "a" + "=" + "1" == "a=1";
    assert "b" + "=" + "2" == "b=2";
    assert "a" + "=" + "3" == "a=3";
    assert pieces[4..] == [""];
    assert Pairs(pieces[4..]) == [];
    assert pieces[3..] == ["a=3", ""];
    assert Pairs(pieces[3..]) == [("a", "3")];
    assert pieces[2..] == ["b=2", "a=3", ""];
    assert Pairs(pieces[2..]) == [("b", "2"), ("a", "3")];
    assert pieces[1..] == ["", "b=2", "a=3", ""];
    assert Pairs(pieces[1..]) == [("b", "2"), ("a", "3")];
  }

  lemma PairOfExact(k: string, v: string)
    requires '=' !in k
    ensures PairOf(k + "=" + v) == (k, v)
  {
    SplitFirstUnique(k, '=', v);
    assert k + "=" + v == k + ['='] + v;
    assert (k + ['='] + v)[|k|] == '=';
  }
}
