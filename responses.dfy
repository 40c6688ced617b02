/** How a Capa problem turns a submitted form into its answers map
    (CapaModule.make_dict_of_responses). The form is a multi-valued
    dictionary: a list of (key, value) pairs in which a key may repeat. */
module Responses {
  import opened Wrappers

  /** A decoded JSON document, the result of json.loads. Numbers are kept
      as integers: the model never looks inside a document. */
  datatype Json =
    | JNull
    | JBool(b: bool)
    | JNumber(n: int)
    | JString(s: string)
    | JArray(elements: seq<Json>)
    | JObject(members: seq<(string, Json)>)

  /** The value stored for one answer: a single text, all the texts of a
      list key ('[]'), or a decoded document ('{}'). */
  datatype AnswerValue = Text(text: string) | TextList(texts: seq<string>) | Document(doc: Json)

  /** The submitted form, as the list of (key, value) pairs it holds. */
  type FormData = seq<(string, string)>

  /** The ValueError raised for a malformed submission. */
  datatype ResponseError =
    | NoUnderscore(key: string)
    | InvalidSubmission(key: string, value: string)
    | DuplicateName(name: string)
  {
    function Message(): string {
      match this
      case NoUnderscore(k) => k + " must contain at least one underscore"
      case InvalidSubmission(k, v) => "Invalid submission: " + v + " for " + k
      case DuplicateName(n) => "Key " + n + " already exists in answers dict"
    }
  }

  // ---------------------------------------------------------------------
  // Reading the form
  // ---------------------------------------------------------------------

  /** The distinct keys of the form. */
  function Keys(data: FormData): set<string>
  {
    set p | p in data :: p.0
  }

  /** All values submitted under `key`, in submission order (getall). */
  function AllValues(data: FormData, key: string): seq<string>
  {
    if data == [] then []
    else if data[0].0 == key then [data[0].1] + AllValues(data[1..], key)
    else AllValues(data[1..], key)
  }

  /** getall returns exactly the values submitted under the key. */
  lemma {:induction false} AllValuesMembers(data: FormData, key: string)
    ensures forall v :: v in AllValues(data, key) <==> (key, v) in data
  {
    if data != [] {
      AllValuesMembers(data[1..], key);
      assert forall v :: (key, v) in data <==> (key, v) == data[0] || (key, v) in data[1..];
    }
  }

  /** The value a plain lookup returns for `key`: the last one submitted
      under it (the last of AllValues). That it is the value of the last
      pair under the key is LastValueIsLast. */
  function LastValue(data: FormData, key: string): (r: string)
    requires key in Keys(data)
    ensures (key, r) in data
  {
    var vs := AllValues(data, key);
    assert vs != [] by {
      AllValuesMembers(data, key);
      var p :| p in data && p.0 == key;
      assert (key, p.1) in data;
    }
    AllValuesMembers(data, key);
    vs[|vs| - 1]
  }

  /** A plain lookup returns the value of the last pair submitted under the
      key: no later pair has that key. */
  lemma LastValueIsLast(data: FormData, key: string)
    requires key in Keys(data)
    ensures exists i :: 0 <= i < |data| && data[i] == (key, LastValue(data, key)) && IsLastUnder(data, key, i)
  {
    AllValuesNonEmpty(data, key);
    AllValuesLast(data, key);
  }

  /** A key of the form has at least one value. */
  lemma AllValuesNonEmpty(data: FormData, key: string)
    requires key in Keys(data)
    ensures AllValues(data, key) != []
  {
    AllValuesMembers(data, key);
    var p :| p in data && p.0 == key;
    assert (key, p.1) in data;
  }

  /** No pair after position `i` is submitted under `key`. */
  predicate IsLastUnder(data: FormData, key: string, i: nat)
  {
    forall j :: i < j < |data| ==> data[j].0 != key
  }

  /** The last value getall returns is the value of the last pair submitted
      under the key. */
  lemma {:induction false} AllValuesLast(data: FormData, key: string)
    requires AllValues(data, key) != []
    ensures var vs := AllValues(data, key);
      exists i :: 0 <= i < |data| && data[i] == (key, vs[|vs| - 1]) && IsLastUnder(data, key, i)
  {
    var rest := data[1..];
    var vs := AllValues(data, key);
    if AllValues(rest, key) == [] {
      assert data[0].0 == key && vs == [data[0].1];
      AllValuesMembers(rest, key);
      forall j | 0 < j < |data| ensures data[j].0 != key {
        assert data[j] == rest[j - 1];
        assert (data[j].0, data[j].1) in rest;
      }
      assert data[0] == (key, vs[|vs| - 1]) && IsLastUnder(data, key, 0);
    } else {
      AllValuesLast(rest, key);
      var tail := AllValues(rest, key);
      assert vs[|vs| - 1] == tail[|tail| - 1];
      var i :| 0 <= i < |rest| && rest[i] == (key, tail[|tail| - 1]) && IsLastUnder(rest, key, i);
      assert data[i + 1] == rest[i];
      forall j | i + 1 < j < |data| ensures data[j].0 != key {
        assert data[j] == rest[j - 1];
      }
      assert IsLastUnder(data, key, i + 1);
    }
  }

  /** What follows the first '_' of `key`, as str.partition('_') gives it:
      empty when there is no underscore. */
  function AfterUnderscore(key: string): string
  {
    if key == [] then []
    else if key[0] == '_' then key[1..]
    else AfterUnderscore(key[1..])
  }

  /** The name part of a key is empty when it has no underscore, and is
      otherwise everything after its first underscore. */
  lemma {:induction false} AfterUnderscoreSplits(key: string)
    ensures '_' !in key ==> AfterUnderscore(key) == []
    ensures '_' in key ==> exists i :: Splits(key, i)
  {
    if key == [] {
    } else if key[0] == '_' {
      assert key[..0] == [];
      assert Splits(key, 0);
    } else {
      var tail := key[1..];
      AfterUnderscoreSplits(tail);
      assert AfterUnderscore(key) == AfterUnderscore(tail);
      assert forall c :: c in key <==> c == key[0] || c in tail;
      if '_' in tail {
        var i: nat :| Splits(tail, i);
        assert key[..i + 1] == [key[0]] + tail[..i];
        assert key[i + 2..] == tail[i + 1..];
        assert Splits(key, i + 1);
      }
    }
  }

  /** A prefix without underscores does not change the name part. */
  lemma {:induction false} AfterUnderscorePrefix(prefix: string, rest: string)
    requires '_' !in prefix
    ensures AfterUnderscore(prefix + rest) == AfterUnderscore(rest)
  {
    if prefix != [] {
      var key := prefix + rest;
      assert prefix[0] in prefix;
      assert key[0] == prefix[0] && key[0] != '_';
      assert '_' !in prefix[1..] by {
        forall c | c in prefix[1..] ensures c in prefix {
        }
      }
      assert key[1..] == prefix[1..] + rest;
      AfterUnderscorePrefix(prefix[1..], rest);
      assert AfterUnderscore(key) == AfterUnderscore(key[1..]);
    } else {
      assert prefix + rest == rest;
    }
  }

  /** `key` has its first underscore at `i`, and its name part after it. */
  ghost predicate Splits(key: string, i: nat)
  {
    i < |key| && key[i] == '_' && '_' !in key[..i] && AfterUnderscore(key) == key[i + 1..]
  }

  predicate EndsWith(s: string, suffix: string)
  {
    |suffix| <= |s| && s[|s| - |suffix|..] == suffix
  }

  /** A list key ends in '[]'. */
  predicate IsListKey(key: string) {
    EndsWith(AfterUnderscore(key), "[]")
  }

  /** A dictionary key ends in '{}' (and so not in '[]'). */
  predicate IsDictKey(key: string) {
    EndsWith(AfterUnderscore(key), "{}")
  }

  /** The answer name of a key: the text after its first '_', less one
      trailing '[]' or '{}'. */
  function AnswerName(key: string): (r: string)
    requires AfterUnderscore(key) != []
    ensures IsListKey(key) ==> AfterUnderscore(key) == r + "[]"
    ensures IsDictKey(key) ==> AfterUnderscore(key) == r + "{}"
    ensures !IsListKey(key) && !IsDictKey(key) ==> r == AfterUnderscore(key)
  {
    var name := AfterUnderscore(key);
    if EndsWith(name, "[]") || EndsWith(name, "{}") then name[..|name| - 2] else name
  }

  /** The value stored for a key, or None when its '{}' document does not
      decode. */
  function KeyValue(data: FormData, key: string, decode: string -> Option<Json>): Option<AnswerValue>
    requires key in Keys(data)
  {
    if IsListKey(key) then Some(TextList(AllValues(data, key)))
    else if IsDictKey(key) then
      match decode(LastValue(data, key))
      case Some(d) => Some(Document(d))
      case None => None
    else Some(Text(LastValue(data, key)))
  }

  // ---------------------------------------------------------------------
  // When a submission is accepted, and what it yields
  // ---------------------------------------------------------------------

  /** The keys in `ks` are all acceptable: each has text after its first
      '_', each document decodes, and no two of them share an answer name. */
  ghost predicate AcceptableOn(data: FormData, decode: string -> Option<Json>, ks: set<string>)
  {
    && ks <= Keys(data)
    && (forall k :: k in ks ==> AfterUnderscore(k) != [])
    && (forall k :: k in ks ==> KeyValue(data, k, decode).Some?)
    && (forall k1, k2 :: k1 in ks && k2 in ks && k1 != k2 && AfterUnderscore(k1) != [] && AfterUnderscore(k2) != [] ==>
          AnswerName(k1) != AnswerName(k2))
  }

  /** The whole submission is acceptable. */
  ghost predicate Acceptable(data: FormData, decode: string -> Option<Json>)
  {
    AcceptableOn(data, decode, Keys(data))
  }

  /** The answers map of an acceptable submission: one entry per key,
      under its answer name. */
  ghost function Answers(data: FormData, decode: string -> Option<Json>): map<string, AnswerValue>
    requires Acceptable(data, decode)
  {
    map k | k in Keys(data) :: AnswerName(k) := KeyValue(data, k, decode).value
  }

  /** The error is one the source can raise for this submission, whatever
      order it visits the keys in: a key without a name part, a last value
      of a dictionary key that does not decode, or a name shared by two keys
      whose values are both read successfully. */
  ghost predicate RaisedFor(data: FormData, decode: string -> Option<Json>, e: ResponseError)
  {
    match e
    case NoUnderscore(k) => k in Keys(data) && AfterUnderscore(k) == []
    case InvalidSubmission(k, v) =>
      && k in Keys(data) && AfterUnderscore(k) != []
      && IsDictKey(k) && !IsListKey(k)
      && v == LastValue(data, k) && decode(v).None?
    case DuplicateName(n) =>
      exists k1, k2 :: k1 in Keys(data) && k2 in Keys(data) && k1 != k2 &&
        AfterUnderscore(k1) != [] && AfterUnderscore(k2) != [] &&
        KeyValue(data, k1, decode).Some? && KeyValue(data, k2, decode).Some? &&
        AnswerName(k1) == n && AnswerName(k2) == n
  }

  /** make_dict_of_responses. Each distinct key is visited once, in an
      order the model leaves open (the source iterates a set). The result
      is the answers map exactly when the submission is acceptable, and
      otherwise an error that the submission exhibits. */
  method MakeDictOfResponses(data: FormData, decode: string -> Option<Json>)
    returns (r: Result<map<string, AnswerValue>, ResponseError>)
    ensures r.Success? <==> Acceptable(data, decode)
    ensures r.Success? ==> r.value == Answers(data, decode)
    ensures r.Failure? ==> RaisedFor(data, decode, r.error)
  {
    var answers: map<string, AnswerValue> := map[];
    var remaining := Keys(data);
    ghost var seen: set<string> := {};
    while remaining != {}
      invariant remaining <= Keys(data)
      invariant seen == Keys(data) - remaining
      invariant AcceptableOn(data, decode, seen)
      invariant answers.Keys == set k | k in seen :: AnswerName(k)
      invariant forall k :: k in seen ==> answers[AnswerName(k)] == KeyValue(data, k, decode).value
      decreases remaining
    {
      var key :| key in remaining;
      var name := AfterUnderscore(key);
      if name == [] {
        return Failure(NoUnderscore(key));
      }
      var isListKey := EndsWith(name, "[]");
      var isDictKey := EndsWith(name, "{}");
      name := if isListKey || isDictKey then name[..|name| - 2] else name;
      assert name == AnswerName(key);
      var val;
      if isListKey {
        val := TextList(AllValues(data, key));
      } else if isDictKey {
        var doc := decode(LastValue(data, key));
        if doc.None? {
          return Failure(InvalidSubmission(key, LastValue(data, key)));
        }
        val := Document(doc.value);
      } else {
        val := Text(LastValue(data, key));
      }
      assert KeyValue(data, key, decode) == Some(val);
      if name in answers {
        ghost var other :| other in seen && AnswerName(other) == name;
        assert key != other;
        return Failure(DuplicateName(name));
      }
      AcceptableOnAdd(data, decode, seen, key);
      answers := answers[name := val];
      remaining := remaining - {key};
      seen := seen + {key};
    }
    assert seen == Keys(data);
    return Success(answers);
  }

  /** One more acceptable key, whose answer name is new, keeps the visited
      keys acceptable and adds its name to theirs. */
  lemma AcceptableOnAdd(data: FormData, decode: string -> Option<Json>, seen: set<string>, key: string)
    requires AcceptableOn(data, decode, seen)
    requires key in Keys(data) && AfterUnderscore(key) != []
    requires KeyValue(data, key, decode).Some?
    requires AnswerName(key) !in set k | k in seen :: AnswerName(k)
    ensures AcceptableOn(data, decode, seen + {key})
    ensures (set k | k in seen + {key} :: AnswerName(k)) == (set k | k in seen :: AnswerName(k)) + {AnswerName(key)}
  {
  }

  // ---------------------------------------------------------------------
  // Properties of the answers map
  // ---------------------------------------------------------------------

  /** An accepted submission has exactly one answer per distinct key, and
      every key finds its own value under its answer name. */
  lemma AnswersOnePerKey(data: FormData, decode: string -> Option<Json>)
    requires Acceptable(data, decode)
    ensures |Answers(data, decode)| == |Keys(data)|
    ensures forall k :: k in Keys(data) ==>
      AnswerName(k) in Answers(data, decode) &&
      Answers(data, decode)[AnswerName(k)] == KeyValue(data, k, decode).value
  {
    var m := Answers(data, decode);
    assert m.Keys == set k | k in Keys(data) :: AnswerName(k);
    NamesCardinality(Keys(data));
  }

  /** Distinct keys with distinct answer names give as many names as keys. */
  lemma {:induction false} NamesCardinality(ks: set<string>)
    requires forall k :: k in ks ==> AfterUnderscore(k) != []
    requires forall k1, k2 :: k1 in ks && k2 in ks && k1 != k2 ==> AnswerName(k1) != AnswerName(k2)
    ensures |set k | k in ks :: AnswerName(k)| == |ks|
  {
    if ks != {} {
      var x :| x in ks;
      var rest := ks - {x};
      NamesCardinality(rest);
      var names := set k | k in ks :: AnswerName(k);
      var restNames := set k | k in rest :: AnswerName(k);
      assert names == restNames + {AnswerName(x)};
      assert AnswerName(x) !in restNames;
    }
  }

  /** The value of each answer follows its key's suffix: a list key keeps
      every value submitted under it, a dictionary key its decoded
      document, any other key its single value. */
  lemma AnswerValueBySuffix(data: FormData, decode: string -> Option<Json>, key: string)
    requires Acceptable(data, decode)
    requires key in Keys(data)
    ensures AnswerName(key) in Answers(data, decode)
    ensures var v := Answers(data, decode)[AnswerName(key)];
      && (IsListKey(key) ==> v.TextList? && forall s :: s in v.texts <==> (key, s) in data)
      && (IsDictKey(key) ==> v.Document? && decode(LastValue(data, key)) == Some(v.doc))
      && (!IsListKey(key) && !IsDictKey(key) ==> v.Text? && v.text == LastValue(data, key))
  {
    AnswersOnePerKey(data, decode);
    AllValuesMembers(data, key);
  }

  /** Every submission that is not acceptable exhibits one of the three
      ValueErrors: a key without an underscore, a document that does not
      decode, or two keys sharing an answer name. */
  lemma RejectedHasCause(data: FormData, decode: string -> Option<Json>)
    requires !Acceptable(data, decode)
    ensures exists e :: RaisedFor(data, decode, e)
  {
    if k :| k in Keys(data) && AfterUnderscore(k) == [] {
      assert RaisedFor(data, decode, NoUnderscore(k));
    } else if k :| k in Keys(data) && KeyValue(data, k, decode).None? {
      assert RaisedFor(data, decode, InvalidSubmission(k, LastValue(data, k)));
    } else {
      var k1, k2 :| k1 in Keys(data) && k2 in Keys(data) && k1 != k2 &&
        AfterUnderscore(k1) != [] && AfterUnderscore(k2) != [] && AnswerName(k1) == AnswerName(k2);
      assert RaisedFor(data, decode, DuplicateName(AnswerName(k1)));
    }
  }

  /** A key without an underscore, such as "input", makes the submission
      unacceptable. */
  lemma UnderscorelessKeyRejected(decode: string -> Option<Json>, v: string)
    ensures !Acceptable([("input", v)], decode)
  {
    var data := [("input", v)];
    assert "input" in Keys(data);
    assert '_' !in "input";
    AfterUnderscoreSplits("input");
  }

  /** The form of the source's own example, {'input_1[]': 'test'}, is
      acceptable. */
  lemma ListKeyAccepted(decode: string -> Option<Json>)
    ensures Keys([("input_1[]", "test")]) == {"input_1[]"}
    ensures Acceptable([("input_1[]", "test")], decode)
    ensures AnswerName("input_1[]") == "1"
    ensures KeyValue([("input_1[]", "test")], "input_1[]", decode) == Some(TextList(["test"]))
  {
    ListKeyName();
    SingleListKey("input_1[]", "test", decode);
  }

  /** The key 'input_1[]' is a list key named '1'. */
  lemma ListKeyName()
    ensures AfterUnderscore("input_1[]") == "1[]"
    ensures IsListKey("input_1[]") && AnswerName("input_1[]") == "1"
  {
    assert "input_1[]" == "input_" + "1[]";
    InputKey("1[]");
  }

  /** A form holding one list key with one value is acceptable, and its
      answers map that key's name to the one-element list. */
  lemma SingleListKey(key: string, v: string, decode: string -> Option<Json>)
    requires AfterUnderscore(key) != [] && IsListKey(key)
    ensures Keys([(key, v)]) == {key}
    ensures KeyValue([(key, v)], key, decode) == Some(TextList([v]))
    ensures Acceptable([(key, v)], decode)
    ensures Answers([(key, v)], decode) == map[AnswerName(key) := TextList([v])]
  {
    var data := [(key, v)];
    assert data[0] == (key, v) && data[1..] == [];
    assert Keys(data) == {key};
    assert AllValues(data, key) == [v];
    SingleKeyAcceptable(data, decode, key);
    SingleKeyAnswers(data, decode, key);
  }

  /** A form with a single distinct key, having a name part and a value,
      is acceptable. */
  lemma SingleKeyAcceptable(data: FormData, decode: string -> Option<Json>, key: string)
    requires Keys(data) == {key}
    requires AfterUnderscore(key) != []
    requires KeyValue(data, key, decode).Some?
    ensures Acceptable(data, decode)
  {
  }

  /** A form with a single distinct key gives a single answer. */
  lemma SingleKeyAnswers(data: FormData, decode: string -> Option<Json>, key: string)
    requires Acceptable(data, decode)
    requires Keys(data) == {key}
    ensures Answers(data, decode) == map[AnswerName(key) := KeyValue(data, key, decode).value]
  {
    var m := Answers(data, decode);
    var single := map[AnswerName(key) := KeyValue(data, key, decode).value];
    forall n | n in m ensures n == AnswerName(key) {
      var k :| k in Keys(data) && AnswerName(k) == n;
    }
    assert AnswerName(key) in m;
    assert m.Keys == single.Keys;
    assert m[AnswerName(key)] == single[AnswerName(key)];
  }

  /** The source's own example: 'input_1[]' holding 'test' gives the
      answers map {'1': ['test']}. */
  lemma ListKeyExample(decode: string -> Option<Json>)
    ensures Acceptable([("input_1[]", "test")], decode)
    ensures Answers([("input_1[]", "test")], decode) == map["1" := TextList(["test"])]
  {
    ListKeyName();
    SingleListKey("input_1[]", "test", decode);
  }

  /** Keys that differ only by a suffix, such as 'input_1' and 'input_1[]',
      collide on their answer name: the submission is rejected rather than
      one overwriting the other. */
  lemma CollidingKeysRejected(decode: string -> Option<Json>, v: string, w: string)
    ensures !Acceptable([("input_1", v), ("input_1[]", w)], decode)
  {
    var data := [("input_1", v), ("input_1[]", w)];
    assert data[0].0 == "input_1" && data[1].0 == "input_1[]";
    assert "input_1" in Keys(data) && "input_1[]" in Keys(data);
    assert |"input_1"| != |"input_1[]"|;
    InputOneNames();
    SharedNameRejected(data, decode, "input_1", "input_1[]");
  }

  /** 'input_1' and 'input_1[]' both have the answer name '1'. */
  lemma InputOneNames()
    ensures AfterUnderscore("input_1") == "1" && AfterUnderscore("input_1[]") == "1[]"
    ensures AnswerName("input_1") == "1" && AnswerName("input_1[]") == "1"
  {
    assert "input_1" == "input_" + "1" && "input_1[]" == "input_" + "1[]";
    InputKey("1");
    InputKey("1[]");
  }

  /** Two distinct keys with the same answer name make the form
      unacceptable. */
  lemma SharedNameRejected(data: FormData, decode: string -> Option<Json>, k1: string, k2: string)
    requires k1 in Keys(data) && k2 in Keys(data) && k1 != k2
    requires AfterUnderscore(k1) != [] && AfterUnderscore(k2) != []
    requires AnswerName(k1) == AnswerName(k2)
    ensures !Acceptable(data, decode)
  {
  }

  /** In a form of two keys, a document that does not decode is never
      reported as a collision: whichever key is visited first, the
      undecodable document raises before a second name can be stored (so
      'input_1{}' beside 'input_1' gives "Invalid submission"). */
  lemma UndecodableNotDuplicate(data: FormData, decode: string -> Option<Json>, k: string, other: string, n: string)
    requires Keys(data) == {k, other}
    requires KeyValue(data, k, decode).None?
    ensures !RaisedFor(data, decode, DuplicateName(n))
  {
  }

  /** The name part of the form's usual keys 'input_<name>'. */
  lemma InputKey(name: string)
    ensures AfterUnderscore("input_" + name) == name
  {
    assert "input_" + name == "input" + ("_" + name);
    AfterUnderscorePrefix("input", "_" + name);
    assert ("_" + name)[1..] == name;
  }
}
