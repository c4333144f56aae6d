/** Stored test data with wildcards: reading, comparing, and updating without losing
  the wildcards. */
module TestData {
  import opened Wrappers

  /** A JSON value. `Any` is the wildcard object; in a file it is the string MARK. */
  datatype Json =
    | Null
    | Bool(b: bool)
    | Num(n: int)
    | Str(s: string)
    | Arr(items: seq<Json>)
    | Obj(fields: map<string, Json>)
    | Any

  const MARK := "<ANY>"

  /** Contains no wildcard object, and so can be written to a file. */
  predicate Plain(j: Json) {
    match j
    case Any => false
    case Arr(items) => forall i :: 0 <= i < |items| ==> Plain(items[i])
    case Obj(fields) => forall k :: k in fields ==> Plain(fields[k])
    case _ => true
  }

  /** `_convert_any`: what reading a file makes of its contents. */
  function ConvertAny(j: Json): Json {
    match j
    case Arr(items) => Arr(seq(|items|, i requires 0 <= i < |items| => ConvertAny(items[i])))
    case Obj(fields) => Obj(map k | k in fields :: ConvertAny(fields[k]))
    case Str(s) => if s == MARK then Any else j
    case _ => j
  }

  /** The element of the old data beside one of the new data; `None` is padded. */
  function ItemOr(items: seq<Json>, i: nat): Json {
    if i < |items| then items[i] else Null
  }

  function FieldOr(fields: map<string, Json>, k: string): Json {
    if k in fields then fields[k] else Null
  }

  /** `_copy_wildcards` */
  function CopyWildcards(data: Json, old_: Json): Json
    decreases data
  {
    if old_.Any? then Str(MARK) else
    match data
    case Arr(items) =>
      if !old_.Arr? then data
      else Arr(seq(|items|, i requires 0 <= i < |items| => CopyWildcards(items[i], ItemOr(old_.items, i))))
    case Obj(fields) =>
      if !old_.Obj? then data
      else Obj(map k | k in fields :: CopyWildcards(fields[k], FieldOr(old_.fields, k)))
    case _ => data
  }

  /** `seen == expected`, where the expected value may contain wildcards. */
  predicate Matches(seen: Json, expected: Json)
    decreases expected
  {
    match expected
    case Any => true
    case Arr(items) =>
      && seen.Arr? && |seen.items| == |items|
      && forall i :: 0 <= i < |items| ==> Matches(seen.items[i], items[i])
    case Obj(fields) =>
      && seen.Obj? && seen.fields.Keys == fields.Keys
      && forall k :: k in fields ==> Matches(seen.fields[k], fields[k])
    case _ => seen == expected
  }

  /** What a file holds after an update, read back. */
  function Reread(data: Json, old_: Json): Json {
    ConvertAny(CopyWildcards(data, old_))
  }

  // ---- Updating makes the comparison pass

  lemma {:induction false} ConvertedMatches(data: Json)
    requires Plain(data)
    ensures Matches(data, ConvertAny(data))
    decreases data
  {
    match data
    case Arr(items) =>
      forall i | 0 <= i < |items| ensures Matches(items[i], ConvertAny(items[i])) { ConvertedMatches(items[i]); }
    case Obj(fields) =>
      forall k | k in fields ensures Matches(fields[k], ConvertAny(fields[k])) { ConvertedMatches(fields[k]); }
    case _ =>
  }

  /** Whatever the old data was, the updated data matches what was seen. */
  lemma {:induction false} UpdatePasses(data: Json, old_: Json)
    requires Plain(data)
    ensures Matches(data, Reread(data, old_))
    decreases data
  {
    match data
    case Arr(items) =>
      if old_.Arr? {
        forall i | 0 <= i < |items|
          ensures Matches(items[i], Reread(items[i], ItemOr(old_.items, i)))
        {
          UpdatePasses(items[i], ItemOr(old_.items, i));
        }
      } else {
        ConvertedMatches(data);
      }
    case Obj(fields) =>
      if old_.Obj? {
        forall k | k in fields
          ensures Matches(fields[k], Reread(fields[k], FieldOr(old_.fields, k)))
        {
          UpdatePasses(fields[k], FieldOr(old_.fields, k));
        }
      } else {
        ConvertedMatches(data);
      }
    case _ =>
  }

  // ---- A second update changes nothing

  lemma {:induction false} CopyOfConverted(data: Json)
    requires Plain(data)
    ensures CopyWildcards(data, ConvertAny(data)) == data
    decreases data
  {
    match data
    case Arr(items) =>
      forall i | 0 <= i < |items| ensures CopyWildcards(items[i], ConvertAny(items[i])) == items[i] {
        CopyOfConverted(items[i]);
      }
    case Obj(fields) =>
      forall k | k in fields ensures CopyWildcards(fields[k], ConvertAny(fields[k])) == fields[k] {
        CopyOfConverted(fields[k]);
      }
    case _ =>
  }

  lemma {:induction false} UpdateIsIdempotent(data: Json, old_: Json)
    requires Plain(data)
    ensures CopyWildcards(data, Reread(data, old_)) == CopyWildcards(data, old_)
    decreases data
  {
    if !old_.Any? {
      match data
      case Arr(items) =>
        if old_.Arr? {
          forall i | 0 <= i < |items|
            ensures CopyWildcards(items[i], Reread(items[i], ItemOr(old_.items, i)))
                    == CopyWildcards(items[i], ItemOr(old_.items, i))
          {
            UpdateIsIdempotent(items[i], ItemOr(old_.items, i));
          }
        } else {
          CopyOfConverted(data);
        }
      case Obj(fields) =>
        if old_.Obj? {
          forall k | k in fields
            ensures CopyWildcards(fields[k], Reread(fields[k], FieldOr(old_.fields, k)))
                    == CopyWildcards(fields[k], FieldOr(old_.fields, k))
          {
            UpdateIsIdempotent(fields[k], FieldOr(old_.fields, k));
          }
        } else {
          CopyOfConverted(data);
        }
      case _ =>
    }
  }

  // ---- Updating with data that matches leaves the stored data as it was

  /** Could have been read from a file. */
  predicate Converted(j: Json) {
    match j
    case Str(s) => s != MARK
    case Arr(items) => forall i :: 0 <= i < |items| ==> Converted(items[i])
    case Obj(fields) => forall k :: k in fields ==> Converted(fields[k])
    case _ => true
  }

  lemma {:induction false} ReadIsConverted(j: Json)
    ensures Converted(ConvertAny(j))
    decreases j
  {
    match j
    case Arr(items) =>
      forall i | 0 <= i < |items| ensures Converted(ConvertAny(items[i])) { ReadIsConverted(items[i]); }
    case Obj(fields) => forall k | k in fields ensures Converted(ConvertAny(fields[k])) { ReadIsConverted(fields[k]); }
    case _ =>
  }

  lemma {:induction false} MatchingUpdateIsNeutral(data: Json, old_: Json)
    requires Converted(old_) && Matches(data, old_)
    ensures Reread(data, old_) == old_
    decreases data
  {
    if !old_.Any? {
      match data
      case Arr(items) =>
        forall i | 0 <= i < |items|
          ensures Reread(items[i], ItemOr(old_.items, i)) == old_.items[i]
        {
          MatchingUpdateIsNeutral(items[i], old_.items[i]);
        }
      case Obj(fields) =>
        forall k | k in fields
          ensures Reread(fields[k], FieldOr(old_.fields, k)) == old_.fields[k]
        {
          MatchingUpdateIsNeutral(fields[k], old_.fields[k]);
        }
        assert Reread(data, old_).fields == old_.fields;
      case _ =>
    }
  }

  // ---- Where the wildcards are

  datatype Step = Index(i: nat) | Field(k: string)

  function Child(j: Json, step: Step): Option<Json> {
    match step
    case Index(i) => if j.Arr? && i < |j.items| then Some(j.items[i]) else None
    case Field(k) => if j.Obj? && k in j.fields then Some(j.fields[k]) else None
  }

  function At(j: Json, path: seq<Step>): Option<Json>
    decreases |path|
  {
    if path == [] then Some(j)
    else
      var c := Child(j, path[0]);
      if c.None? then None else At(c.value, path[1..])
  }

  /** Some position above this one is a wildcard. */
  ghost predicate Covered(j: Json, path: seq<Step>)
    decreases |path|
  {
    path != [] && (j.Any? || (Child(j, path[0]).Some? && Covered(Child(j, path[0]).value, path[1..])))
  }

  lemma {:induction false} ConvertedAt(data: Json, path: seq<Step>)
    ensures At(ConvertAny(data), path) == if At(data, path).Some? then Some(ConvertAny(At(data, path).value)) else None
    decreases |path|
  {
    if path != [] && Child(data, path[0]).Some? {
      ConvertedAt(Child(data, path[0]).value, path[1..]);
    }
  }

  /** After an update there is a wildcard exactly where the new data has a position at
    which the old data had one, or which spells the mark itself, and no wildcard of the
    old data above it. */
  lemma {:induction false} WildcardsAfterUpdate(data: Json, old_: Json, path: seq<Step>)
    requires Plain(data)
    ensures At(Reread(data, old_), path) == Some(Any) <==>
              && At(data, path).Some?
              && (At(old_, path) == Some(Any) || (At(data, path) == Some(Str(MARK)) && !Covered(old_, path)))
    decreases |path|
  {
    if path != [] {
      var step, rest := path[0], path[1..];
      var c, o := Child(data, step), Child(old_, step);
      if c.Some? && !old_.Any? {
        if o.Some? {
          assert Child(Reread(data, old_), step) == Some(Reread(c.value, o.value));
          WildcardsAfterUpdate(c.value, o.value, rest);
        } else if (data.Arr? && old_.Arr?) || (data.Obj? && old_.Obj?) {
          assert Child(Reread(data, old_), step) == Some(Reread(c.value, Null));
          WildcardsAfterUpdate(c.value, Null, rest);
          NothingInNull(rest);
        } else {
          ConvertedAt(data, path);
          PlainAt(data, path);
        }
      }
    }
  }

  lemma {:induction false} NothingInNull(path: seq<Step>)
    ensures At(Null, path) != Some(Any) && !Covered(Null, path)
  {}

  lemma {:induction false} PlainAt(data: Json, path: seq<Step>)
    requires Plain(data)
    ensures At(data, path).Some? ==> Plain(At(data, path).value)
    decreases |path|
  {
    if path != [] && Child(data, path[0]).Some? {
      PlainAt(Child(data, path[0]).value, path[1..]);
    }
  }

  /** What is read has the positions of the file, and wildcards exactly where it spells
    them. */
  ghost predicate Reads(file: Json, data: Json) {
    forall at: seq<Step> ::
      && (At(data, at).Some? <==> At(file, at).Some?)
      && (At(data, at) == Some(Any) <==> At(file, at) == Some(Str(MARK)))
  }

  lemma {:induction false} ReadIsFaithful(file: Json)
    requires Plain(file)
    ensures Reads(file, ConvertAny(file)) && Converted(ConvertAny(file)) && Matches(file, ConvertAny(file))
  {
    forall at: seq<Step>
      ensures At(ConvertAny(file), at).Some? <==> At(file, at).Some?
      ensures At(ConvertAny(file), at) == Some(Any) <==> At(file, at) == Some(Str(MARK))
    {
      ConvertedAt(file, at);
      PlainAt(file, at);
    }
    ReadIsConverted(file);
    ConvertedMatches(file);
  }

  /** Where a wildcard is after an update: where the old data, if there was any, has one, or
    where the new data spells one that the old data does not hide. */
  ghost predicate WildcardAt(old_: Option<Json>, data: Json, at: seq<Step>) {
    && At(data, at).Some?
    && if old_.None? then At(data, at) == Some(Str(MARK))
       else At(old_.value, at) == Some(Any) || (At(data, at) == Some(Str(MARK)) && !Covered(old_.value, at))
  }

  /** The file has its wildcards there and nowhere else. */
  ghost predicate HasWildcards(file: Json, old_: Option<Json>, data: Json) {
    forall at: seq<Step> :: At(ConvertAny(file), at) == Some(Any) <==> WildcardAt(old_, data, at)
  }

  lemma {:induction false} WrittenWildcards(data: Json, old_: Option<Json>)
    requires Plain(data)
    ensures HasWildcards(if old_.Some? then CopyWildcards(data, old_.value) else data, old_, data)
  {
    var file := if old_.Some? then CopyWildcards(data, old_.value) else data;
    forall at: seq<Step> ensures At(ConvertAny(file), at) == Some(Any) <==> WildcardAt(old_, data, at) {
      if old_.Some? {
        WildcardsAfterUpdate(data, old_.value, at);
      } else {
        ConvertedAt(data, at);
        PlainAt(data, at);
      }
    }
  }

  // ---- What matches

  /** Without wildcards only equal data matches. */
  lemma {:induction false} PlainMatchesIff(seen: Json, expected: Json)
    requires Plain(expected)
    ensures Matches(seen, expected) <==> seen == expected
    decreases expected
  {
    match expected
    case Arr(items) =>
      forall i | 0 <= i < |items| && seen.Arr? && i < |seen.items|
        ensures Matches(seen.items[i], items[i]) <==> seen.items[i] == items[i]
      {
        PlainMatchesIff(seen.items[i], items[i]);
      }
      if Matches(seen, expected) {
        assert seen.items == items;
      }
    case Obj(fields) =>
      forall k | k in fields && seen.Obj? && k in seen.fields
        ensures Matches(seen.fields[k], fields[k]) <==> seen.fields[k] == fields[k]
      {
        PlainMatchesIff(seen.fields[k], fields[k]);
      }
      if Matches(seen, expected) {
        assert seen.fields == fields;
      }
    case _ =>
  }

  // ---- The helper object

  datatype Outcome = Passed | Failed | FileNotFound

  class Data {
    const update: bool
    /** File contents by path. */
    var files: map<string, Json>

    ghost predicate Valid()
      reads this
    {
      forall p :: p in files ==> Plain(files[p])
    }

    constructor (update: bool, files: map<string, Json>)
      requires forall p :: p in files ==> Plain(files[p])
      ensures Valid() && this.update == update && this.files == files
    {
      this.update, this.files := update, files;
    }

    /** None stands for a missing file. */
    method ReadJson(path: string) returns (data: Option<Json>)
      requires Valid()
      ensures data.Some? <==> path in files
      ensures data.Some? ==> data.value == ConvertAny(files[path])
      ensures data.Some? ==> Reads(files[path], data.value) && Converted(data.value) && Matches(files[path], data.value)
    {
      if path in files {
        ReadIsFaithful(files[path]);
      }
      return if path in files then Some(ConvertAny(files[path])) else None;
    }

    method WriteJson(data: Json, path: string)
      requires Valid() && Plain(data)
      modifies this
      ensures Valid()
      ensures files == old(files)[path :=
                if path in old(files) then CopyWildcards(data, ConvertAny(old(files)[path])) else data]
      ensures Matches(data, ConvertAny(files[path]))
      ensures HasWildcards(files[path], if path in old(files) then Some(ConvertAny(old(files)[path])) else None, data)
    {
      WrittenWildcards(data, if path in files then Some(ConvertAny(files[path])) else None);
      var contents := data;
      if path in files {
        var stored := ReadJson(path);
        contents := CopyWildcards(data, stored.value);
        CopyIsPlain(data, stored.value);
        UpdatePasses(data, stored.value);
      } else {
        ConvertedMatches(data);
      }
      files := files[path := contents];
    }

    /** In update mode the assertion never fails, other files stay as they are, and the file
      then matches what was seen, with the wildcards that it had, where there still is
      something. Data that already matched leaves what is read unchanged. Otherwise it
      compares. */
    method AssertJsonMatches(seen: Json, path: string) returns (outcome: Outcome)
      requires Valid() && Plain(seen)
      modifies this
      ensures Valid()
      ensures update ==> outcome == Passed && path in files && files - {path} == old(files) - {path}
      ensures update ==> Matches(seen, ConvertAny(files[path]))
      ensures update ==>
                HasWildcards(files[path], if path in old(files) then Some(ConvertAny(old(files)[path])) else None, seen)
      ensures update && path in old(files) && Matches(seen, ConvertAny(old(files)[path])) ==>
                ConvertAny(files[path]) == ConvertAny(old(files)[path])
      ensures !update ==>
                && files == old(files)
                && outcome == if path !in files then FileNotFound
                              else if Matches(seen, ConvertAny(files[path])) then Passed else Failed
    {
      if update {
        if path in files {
          ReadIsConverted(files[path]);
          if Matches(seen, ConvertAny(files[path])) {
            MatchingUpdateIsNeutral(seen, ConvertAny(files[path]));
          }
        }
        WriteJson(seen, path);
      }
      var expected := ReadJson(path);
      if expected.None? {
        return FileNotFound;
      }
      return if Matches(seen, expected.value) then Passed else Failed;
    }
  }

  lemma {:induction false} CopyIsPlain(data: Json, old_: Json)
    requires Plain(data)
    ensures Plain(CopyWildcards(data, old_))
    decreases data
  {
    match data
    case Arr(items) =>
      if old_.Arr? {
        forall i | 0 <= i < |items| ensures Plain(CopyWildcards(items[i], ItemOr(old_.items, i))) {
          CopyIsPlain(items[i], ItemOr(old_.items, i));
        }
      }
    case Obj(fields) =>
      if old_.Obj? {
        forall k | k in fields ensures Plain(CopyWildcards(fields[k], FieldOr(old_.fields, k))) {
          CopyIsPlain(fields[k], FieldOr(old_.fields, k));
        }
      }
    case _ =>
  }
}
