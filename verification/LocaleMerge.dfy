/**
  The deep merge of a locale's messages over English. Objects merge, anything else replaces; a
  JavaScript array is an object whose keys are its indices, but is never merged in from the override.
 */
module LocaleMerge {
  import opened Wrappers

  /** Text and every other scalar, null included, is a leaf. */
  datatype Value = Leaf(text: string) | Items(entries: map<string, Value>) | Tree(entries: map<string, Value>)

  type Messages = map<string, Value>

  /** Does the override's entry merge into the one it meets? */
  predicate Merges(base: Messages, key: string, value: Value) {
    key in base && !base[key].Leaf? && value.Tree?
  }

  /** Merging `overrides`, an object or array, over `base`. */
  function Merge(base: Messages, overrides: Value): Messages
    requires !overrides.Leaf?
    decreases overrides
  {
    map key | key in base.Keys + overrides.entries.Keys ::
      if key !in overrides.entries then base[key]
      else if Merges(base, key, overrides.entries[key])
      then Tree(Merge(base[key].entries, overrides.entries[key]))
      else overrides.entries[key]
  }

  method MergeMessages(base: Messages, overrides: Value) returns (out: Messages)
    requires !overrides.Leaf?
    ensures out == Merge(base, overrides)
    decreases overrides
  {
    out := base;
    var todo := overrides.entries.Keys;
    while todo != {}
      invariant todo <= overrides.entries.Keys
      invariant out.Keys == base.Keys + (overrides.entries.Keys - todo)
      invariant forall key :: key in out ==>
                  out[key] == if key in overrides.entries.Keys - todo then Merge(base, overrides)[key] else base[key]
    {
      var key :| key in todo;
      var value := overrides.entries[key];
      if key in out && !out[key].Leaf? && value.Tree? {
        var merged := MergeMessages(out[key].entries, value);
        out := out[key := Tree(merged)];
      } else {
        out := out[key := value];
      }
      todo := todo - {key};
    }
  }

  // ---------- Reading a message ----------

  type Path = seq<string>

  /** The text at a path, if there is text there. */
  function Lookup(messages: Messages, path: Path): Option<string>
    decreases |path|, 0
  {
    if path == [] || path[0] !in messages then None
    else Below(messages[path[0]], path[1..])
  }

  function Below(v: Value, path: Path): Option<string>
    decreases |path|, 1
  {
    match v
    case Leaf(text) => if path == [] then Some(text) else None
    case Items(entries) => if path == [] then None else Lookup(entries, path)
    case Tree(entries) => if path == [] then None else Lookup(entries, path)
  }

  lemma {:induction false} LookupMerged(base: Messages, overrides: Value, path: Path)
    requires !overrides.Leaf? && path != []
    ensures var key := path[0];
            Lookup(Merge(base, overrides), path) ==
            if key !in overrides.entries then Lookup(base, path)
            else if Merges(base, key, overrides.entries[key]) then
              Lookup(Merge(base[key].entries, overrides.entries[key]), path[1..])
            else Lookup(overrides.entries, path)
  {
  }

  // ---------- Laws of every merge ----------

  /** Every text of the override is where the override has it. */
  lemma {:induction false} OverrideWins(base: Messages, overrides: Value, path: Path)
    requires !overrides.Leaf? && Lookup(overrides.entries, path).Some?
    ensures Lookup(Merge(base, overrides), path) == Lookup(overrides.entries, path)
    decreases |path|
  {
    LookupMerged(base, overrides, path);
    var value := overrides.entries[path[0]];
    if Merges(base, path[0], value) {
      OverrideWins(base[path[0]].entries, value, path[1..]);
    }
  }

  lemma {:induction false} MergeOverItself(v: Value)
    requires !v.Leaf?
    ensures Merge(v.entries, v) == v.entries
    decreases v
  {
    forall key | key in v.entries && Merges(v.entries, key, v.entries[key])
      ensures Tree(Merge(v.entries[key].entries, v.entries[key])) == v.entries[key]
    {
      MergeOverItself(v.entries[key]);
    }
  }

  /** Merging the same override again changes nothing, arrays or not. */
  lemma {:induction false} MergeIsIdempotent(base: Messages, overrides: Value)
    requires !overrides.Leaf?
    ensures Merge(Merge(base, overrides), overrides) == Merge(base, overrides)
    decreases overrides
  {
    var once := Merge(base, overrides);
    forall key | key in overrides.entries
      ensures Merge(once, overrides)[key] == once[key]
    {
      var value := overrides.entries[key];
      if Merges(base, key, value) {
        MergeIsIdempotent(base[key].entries, value);
      } else if value.Tree? {
        MergeOverItself(value);
      }
    }
    assert Merge(once, overrides).Keys == once.Keys;
  }

  // ---------- When no English text is lost ----------

  predicate HasText(v: Value) {
    v.Leaf? || exists key :: key in v.entries && HasText(v.entries[key])
  }

  /** Does `w` have text at every path at which `v` has? */
  predicate Covers(v: Value, w: Value)
    decreases v
  {
    if v.Leaf? then w.Leaf?
    else
      forall key :: key in v.entries && HasText(v.entries[key]) ==>
        !w.Leaf? && key in w.entries && Covers(v.entries[key], w.entries[key])
  }

  /** Wherever an entry is replaced, the replacement has text at all the paths that go. */
  predicate NothingLost(base: Messages, overrides: Value)
    requires !overrides.Leaf?
    decreases overrides
  {
    forall key :: key in base && key in overrides.entries ==>
      if Merges(base, key, overrides.entries[key])
      then NothingLost(base[key].entries, overrides.entries[key])
      else Covers(base[key], overrides.entries[key])
  }

  lemma {:induction false} TextIsSomewhere(v: Value) returns (path: Path)
    requires HasText(v)
    ensures Below(v, path).Some?
    decreases v
  {
    if v.Leaf? {
      path := [];
    } else {
      var key :| key in v.entries && HasText(v.entries[key]);
      var rest := TextIsSomewhere(v.entries[key]);
      path := [key] + rest;
      assert path[1..] == rest;
    }
  }

  lemma {:induction false} TextMeansHasText(v: Value, path: Path)
    requires Below(v, path).Some?
    ensures HasText(v)
    decreases |path|
  {
    if !v.Leaf? {
      TextMeansHasText(v.entries[path[0]], path[1..]);
    }
  }

  lemma {:induction false} CoversKeepsPaths(v: Value, w: Value, path: Path)
    requires Covers(v, w) && Below(v, path).Some?
    ensures Below(w, path).Some?
    decreases |path|
  {
    if !v.Leaf? {
      TextMeansHasText(v.entries[path[0]], path[1..]);
      CoversKeepsPaths(v.entries[path[0]], w.entries[path[0]], path[1..]);
    }
  }

  lemma {:induction false} UncoveredPath(v: Value, w: Value) returns (path: Path)
    requires !Covers(v, w)
    ensures Below(v, path).Some? && Below(w, path) == None
    decreases v
  {
    if v.Leaf? {
      path := [];
    } else {
      var key :| key in v.entries && HasText(v.entries[key]) &&
                 (w.Leaf? || key !in w.entries || !Covers(v.entries[key], w.entries[key]));
      var rest: Path;
      if w.Leaf? || key !in w.entries {
        rest := TextIsSomewhere(v.entries[key]);
      } else {
        rest := UncoveredPath(v.entries[key], w.entries[key]);
      }
      path := [key] + rest;
      assert path[1..] == rest;
    }
  }

  /** The override's text where it has some, and the English text everywhere else it has none. */
  lemma {:induction false} EnglishFillsTheGaps(base: Messages, overrides: Value, path: Path)
    requires !overrides.Leaf? && NothingLost(base, overrides) && Lookup(base, path).Some?
    ensures Lookup(Merge(base, overrides), path) ==
            if Lookup(overrides.entries, path).Some? then Lookup(overrides.entries, path) else Lookup(base, path)
    decreases |path|
  {
    LookupMerged(base, overrides, path);
    var key := path[0];
    if key in overrides.entries {
      if Merges(base, key, overrides.entries[key]) {
        EnglishFillsTheGaps(base[key].entries, overrides.entries[key], path[1..]);
      } else {
        CoversKeepsPaths(base[key], overrides.entries[key], path[1..]);
      }
    }
  }

  lemma {:induction false} LostPath(base: Messages, overrides: Value) returns (path: Path)
    requires !overrides.Leaf? && !NothingLost(base, overrides)
    ensures Lookup(base, path).Some? && Lookup(Merge(base, overrides), path) == None
    decreases overrides
  {
    var key :| key in base && key in overrides.entries &&
               !(if Merges(base, key, overrides.entries[key])
                 then NothingLost(base[key].entries, overrides.entries[key])
                 else Covers(base[key], overrides.entries[key]));
    var value := overrides.entries[key];
    var rest: Path;
    if Merges(base, key, value) {
      rest := LostPath(base[key].entries, value);
    } else {
      rest := UncoveredPath(base[key], value);
    }
    path := [key] + rest;
    assert path[1..] == rest;
    LookupMerged(base, overrides, path);
  }

  /** No English text is lost exactly when every replacement covers what it replaces. */
  lemma {:induction false} EveryTextSurvives(base: Messages, overrides: Value)
    requires !overrides.Leaf?
    ensures NothingLost(base, overrides) <==>
            forall path: Path :: Lookup(base, path).Some? ==> Lookup(Merge(base, overrides), path).Some?
  {
    if NothingLost(base, overrides) {
      forall path: Path | Lookup(base, path).Some?
        ensures Lookup(Merge(base, overrides), path).Some?
      {
        EnglishFillsTheGaps(base, overrides, path);
      }
    } else {
      var path := LostPath(base, overrides);
    }
  }

  // ---------- Trees of objects and text alone ----------

  predicate ArrayFree(v: Value) {
    v.Leaf? || (v.Tree? && forall key :: key in v.entries ==> ArrayFree(v.entries[key]))
  }

  /** No path is an object on one side and text on the other. */
  predicate SameShape(base: Messages, overrides: Value)
    requires !overrides.Leaf?
    decreases overrides
  {
    forall key :: key in base && key in overrides.entries ==>
      && base[key].Leaf? == overrides.entries[key].Leaf?
      && (!base[key].Leaf? ==> SameShape(base[key].entries, overrides.entries[key]))
  }

  /** The promise as translators are given it: an incomplete translation of the same shape loses nothing. */
  lemma {:induction false} IncompleteTranslationIsSafe(base: Messages, overrides: Value)
    requires overrides.Tree? && ArrayFree(overrides) && SameShape(base, overrides)
    ensures NothingLost(base, overrides)
    decreases overrides
  {
    forall key | key in base && key in overrides.entries
      ensures if Merges(base, key, overrides.entries[key])
              then NothingLost(base[key].entries, overrides.entries[key])
              else Covers(base[key], overrides.entries[key])
    {
      if !base[key].Leaf? {
        IncompleteTranslationIsSafe(base[key].entries, overrides.entries[key]);
      }
    }
  }

  /** Text over an object does lose the texts under it. */
  lemma {:induction false} TextOverObjectLoses()
    ensures var base: Messages := map["nav" := Tree(map["home" := Leaf("Home")])];
            var overrides := Tree(map["nav" := Leaf("Start")]);
            && Lookup(base, ["nav", "home"]) == Some("Home")
            && Lookup(Merge(base, overrides), ["nav", "home"]) == None
  {
    var base: Messages := map["nav" := Tree(map["home" := Leaf("Home")])];
    var path := ["nav", "home"];
    assert path[1..] == ["home"] && ["home"][1..] == [];
    assert Below(base["nav"], ["home"]) == Some("Home");
    LookupMerged(base, Tree(map["nav" := Leaf("Start")]), path);
  }
}
