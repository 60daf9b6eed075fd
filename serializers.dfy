/**
 * The strict input check of the quiz update serializer: a request body that
 * names a field the serializer does not declare is refused with one message
 * listing the unexpected names in ascending order. A request body is its list
 * of key/value pairs in the order received.
 */
module Serializers {
  import opened Wrappers
  import opened Text
  import opened QuizPayload
  import opened QuizStore

  /** Python's `<` on strings: lexicographic by code point, a proper prefix first. */
  predicate Less(a: string, b: string)
    decreases |a|
  {
    b != [] && (a == [] || a[0] < b[0] || (a[0] == b[0] && Less(a[1..], b[1..])))
  }

  lemma {:induction false} LessIrreflexive(a: string)
    ensures !Less(a, a)
    decreases |a|
  {
    if a != [] {
      LessIrreflexive(a[1..]);
    }
  }

  lemma {:induction false} LessTransitive(a: string, b: string, c: string)
    requires Less(a, b) && Less(b, c)
    ensures Less(a, c)
    decreases |a|
  {
    if a != [] && a[0] == b[0] && b[0] == c[0] {
      LessTransitive(a[1..], b[1..], c[1..]);
    }
  }

  lemma {:induction false} LessTotal(a: string, b: string)
    requires a != b
    ensures Less(a, b) || Less(b, a)
    decreases |a|
  {
    if a != [] && b != [] && a[0] == b[0] {
      LessTotal(a[1..], b[1..]);
    }
  }

  lemma LessAsymmetric(a: string, b: string)
    requires Less(a, b)
    ensures !Less(b, a)
  {
    if Less(b, a) {
      LessTransitive(a, b, a);
      LessIrreflexive(a);
    }
  }

  /** Ascending without repetitions. */
  ghost predicate StrictlySorted(xs: seq<string>) {
    forall i, j :: 0 <= i < j < |xs| ==> Less(xs[i], xs[j])
  }

  /** Puts `x` into an ascending list, unless it is there already. */
  function Insert(x: string, xs: seq<string>): (r: seq<string>)
    requires StrictlySorted(xs)
    ensures StrictlySorted(r)
    ensures forall y :: y in r <==> y == x || y in xs
  {
    if xs == [] then [x]
    else if x == xs[0] then xs
    else if Less(x, xs[0]) then
      assert StrictlySorted([x] + xs) by {
        forall i, j | 0 <= i < j < |xs| + 1 ensures Less(([x] + xs)[i], ([x] + xs)[j]) {
          if i == 0 && j > 1 {
            LessTransitive(x, xs[0], xs[j - 1]);
          }
        }
      }
      [x] + xs
    else
      LessTotal(x, xs[0]);
      var rest := Insert(x, xs[1..]);
      assert forall y :: y in xs[1..] ==> Less(xs[0], y);
      assert StrictlySorted([xs[0]] + rest) by {
        forall i, j | 0 <= i < j < |rest| + 1 ensures Less(([xs[0]] + rest)[i], ([xs[0]] + rest)[j]) {
          assert rest[j - 1] in rest;
        }
      }
      assert xs == [xs[0]] + xs[1..];
      [xs[0]] + rest
  }

  /** `sorted(set(keys))`: the distinct keys in ascending order. */
  function SortedSet(keys: seq<string>): (r: seq<string>)
    ensures StrictlySorted(r)
    ensures forall y :: y in r <==> y in keys
  {
    if keys == [] then [] else Insert(keys[|keys| - 1], SortedSet(keys[..|keys| - 1]))
  }

  /** Two ascending lists without repetitions that hold the same names are the same list. */
  lemma {:induction false} SortedUnique(xs: seq<string>, ys: seq<string>)
    requires StrictlySorted(xs) && StrictlySorted(ys)
    requires forall y :: y in xs <==> y in ys
    ensures xs == ys
    decreases |xs|
  {
    if xs != [] {
      assert xs[0] in xs;
    }
    if ys != [] {
      assert ys[0] in ys;
    }
    if xs != [] && ys != [] {
      if xs[0] != ys[0] {
        var i :| 0 <= i < |ys| && ys[i] == xs[0];
        var j :| 0 <= j < |xs| && xs[j] == ys[0];
        assert Less(ys[0], xs[0]) && Less(xs[0], ys[0]);
        LessAsymmetric(ys[0], xs[0]);
      }
      forall y ensures y in xs[1..] <==> y in ys[1..] {
        if y in xs[1..] {
          var k :| 1 <= k < |xs| && xs[k] == y;
          assert Less(xs[0], y);
          LessIrreflexive(y);
          assert y in ys;
        }
        if y in ys[1..] {
          var k :| 1 <= k < |ys| && ys[k] == y;
          assert Less(ys[0], y);
          LessIrreflexive(y);
          assert y in xs;
        }
      }
      SortedUnique(xs[1..], ys[1..]);
      assert xs == [xs[0]] + xs[1..] && ys == [ys[0]] + ys[1..];
    }
  }

  /** The keys of a request body, in the order received. */
  function Keys(data: seq<(string, Json)>): (keys: seq<string>)
    ensures |keys| == |data|
    ensures forall i :: 0 <= i < |data| ==> keys[i] == data[i].0
  {
    seq(|data|, i requires 0 <= i < |data| => data[i].0)
  }

  /** The received keys that are not declared, in the order received. */
  function Undeclared(allowed: set<string>, keys: seq<string>): (r: seq<string>)
    ensures forall y :: y in r <==> y in keys && y !in allowed
  {
    if keys == [] then []
    else if keys[0] in allowed then Undeclared(allowed, keys[1..])
    else [keys[0]] + Undeclared(allowed, keys[1..])
  }

  /** `sorted(received - allowed)`. */
  function UnexpectedFields(allowed: set<string>, data: seq<(string, Json)>): (r: seq<string>)
    ensures StrictlySorted(r)
    ensures forall y :: y in r <==> y in Keys(data) && y !in allowed
  {
    SortedSet(Undeclared(allowed, Keys(data)))
  }

  const NonFieldErrors: string := "non_field_errors"
  const UnexpectedPrefix: string := "Unexpected fields: "

  /** The outcome of the strict check: hand over to the serializer's own conversion, or refuse. */
  datatype StrictCheck =
    | Delegate
    | ValidationError(field: string, messages: seq<string>)

  /** `StrictModelSerializer.to_internal_value`, up to the hand-over to the parent conversion. */
  function ToInternalValue(allowed: set<string>, data: seq<(string, Json)>): (r: StrictCheck)
    ensures r.Delegate? <==> forall i :: 0 <= i < |data| ==> data[i].0 in allowed
    ensures r.ValidationError? ==>
      r.field == NonFieldErrors && |r.messages| == 1 && StartsWith(r.messages[0], UnexpectedPrefix)
  {
    var unexpected := UnexpectedFields(allowed, data);
    if unexpected == [] then Delegate
    else
      var m := UnexpectedPrefix + Join(unexpected, ", ");
      assert m[..|UnexpectedPrefix|] == UnexpectedPrefix;
      assert forall i :: 0 <= i < |data| && data[i].0 !in allowed ==> data[i].0 in Keys(data);
      assert unexpected[0] in Keys(data);
      ValidationError(NonFieldErrors, [m])
  }

  /**
   * The message names every unexpected field once, in ascending order, whatever
   * the order or repetition of the keys in the request.
   */
  lemma UnexpectedMessage(allowed: set<string>, data: seq<(string, Json)>, names: seq<string>)
    requires StrictlySorted(names)
    requires forall y :: y in names <==> (exists i :: 0 <= i < |data| && data[i].0 == y) && y !in allowed
    requires names != []
    ensures ToInternalValue(allowed, data) == ValidationError(NonFieldErrors, [UnexpectedPrefix + Join(names, ", ")])
  {
    var unexpected := UnexpectedFields(allowed, data);
    forall y ensures y in unexpected <==> y in names {
      if y in Keys(data) {
        var i :| 0 <= i < |data| && Keys(data)[i] == y;
        assert data[i].0 == y;
      }
      if exists i :: 0 <= i < |data| && data[i].0 == y {
        var i :| 0 <= i < |data| && data[i].0 == y;
        assert Keys(data)[i] == y;
      }
    }
    SortedUnique(unexpected, names);
  }

  /** The declared fields of `QuizUpdateSerializer`. */
  const QuizUpdateFields: set<string> := {"title", "description"}

  /** A title and description update is handed over; adding `video_url` to it is refused by name. */
  lemma VideoUrlRefused(title: Json, description: Json, url: Json)
    ensures ToInternalValue(QuizUpdateFields, [("title", title), ("description", description)]) == Delegate
    ensures ToInternalValue(QuizUpdateFields, [("title", title), ("video_url", url)])
         == ValidationError(NonFieldErrors, [UnexpectedPrefix + "video_url"])
  {
    var data := [("title", title), ("video_url", url)];
    assert "video_url" !in QuizUpdateFields;
    forall y ensures y in ["video_url"] <==> (exists i :: 0 <= i < |data| && data[i].0 == y) && y !in QuizUpdateFields {
      if y == "video_url" {
        assert data[1].0 == y;
      }
    }
    UnexpectedMessage(QuizUpdateFields, data, ["video_url"]);
  }

  /** The value of the last pair named `key`, or `absent` when no pair has that name. */
  function LastValue(data: seq<(string, Json)>, key: string, absent: Json): (v: Json)
    ensures (forall i :: 0 <= i < |data| ==> data[i].0 != key) ==> v == absent
    ensures (exists i :: 0 <= i < |data| && data[i].0 == key) ==>
      exists i :: 0 <= i < |data| && data[i].0 == key && v == data[i].1 && forall j :: i < j < |data| ==> data[j].0 != key
    decreases |data|
  {
    if data == [] then absent
    else if data[|data| - 1].0 == key then data[|data| - 1].1
    else
      var front := data[..|data| - 1];
      var v := LastValue(front, key, absent);
      assert forall i :: 0 <= i < |front| ==> front[i] == data[i];
      v
  }

  /** Reading the pairs from the front: a leading pair for `key` only changes the fallback. */
  lemma {:induction false} LastValueCons(d: (string, Json), rest: seq<(string, Json)>, key: string, absent: Json)
    ensures LastValue([d] + rest, key, absent) == LastValue(rest, key, if d.0 == key then d.1 else absent)
    decreases |rest|
  {
    if rest != [] {
      var front := rest[..|rest| - 1];
      assert ([d] + rest)[..|[d] + rest| - 1] == [d] + front;
      LastValueCons(d, front, key, absent);
    } else {
      assert [d] + rest == [d];
      assert [d][..0] == [];
    }
  }

  /**
   * A partial update of a stored quiz: a refused request changes nothing, an
   * accepted one sets the title and description it carries.
   */
  function PatchQuiz(row: QuizRow, data: seq<(string, Json)>): (r: Result<QuizRow, StrictCheck>)
    ensures r.Ok? ==> r.value == QuizRow(LastValue(data, "title", row.title), LastValue(data, "description", row.description), row.videoUrl, row.owner)
    ensures r.Err? ==> r.error.ValidationError?
  {
    match ToInternalValue(QuizUpdateFields, data)
    case ValidationError(f, ms) => Err(ValidationError(f, ms))
    case Delegate => Ok(ApplyFields(row, data))
  }

  /**
   * The accepted fields written into the row in request order: each of `title` and
   * `description` ends as the last value given for it, or as it was when absent.
   */
  function ApplyFields(row: QuizRow, data: seq<(string, Json)>): (r: QuizRow)
    ensures r.title == LastValue(data, "title", row.title)
    ensures r.description == LastValue(data, "description", row.description)
    ensures r.videoUrl == row.videoUrl && r.owner == row.owner
    decreases |data|
  {
    if data == [] then row
    else
      var next := if data[0].0 == "title" then row.(title := data[0].1)
        else if data[0].0 == "description" then row.(description := data[0].1)
        else row;
      LastValueCons(data[0], data[1..], "title", row.title);
      LastValueCons(data[0], data[1..], "description", row.description);
      assert [data[0]] + data[1..] == data;
      ApplyFields(next, data[1..])
  }

  /** The update of the test suite: both fields are set, the rest of the row is kept. */
  lemma PatchSetsTitleAndDescription(row: QuizRow, title: Json, description: Json)
    ensures PatchQuiz(row, [("title", title), ("description", description)])
         == Ok(row.(title := title, description := description))
  {
    VideoUrlRefused(title, description, JNull);
  }

  /** No update request changes the stored video URL, accepted or not. */
  lemma PatchKeepsVideoUrl(row: QuizRow, data: seq<(string, Json)>)
    ensures PatchQuiz(row, data).Ok? ==> PatchQuiz(row, data).value.videoUrl == row.videoUrl
    ensures PatchQuiz(row, data).Ok? <==> forall i :: 0 <= i < |data| ==> data[i].0 in QuizUpdateFields
  {
  }
}
