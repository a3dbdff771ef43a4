/**
  Loading the quiz definitions: each file's decoded record is parsed, the
  ones that fail are skipped, and the accepted tests are collected in a map
  keyed by their name, a later test replacing an earlier one of that name.
 */
module Loading {
  import opened Wrappers
  import opened Schemas

  /**
    The test a file yields: `None` when its contents could not be read or
    decoded into a record, or when the record is rejected.
   */
  function TestFrom(file: Option<RawTest>): (r: Option<Test>)
    ensures r.Some? ==> ValidTest(r.value)
    ensures r.Some? <==> file.Some? && TestRulesHold(file.value)
  {
    match file
    case None => None
    case Some(raw) =>
      match ParseTest(raw)
      case Ok(t) => Some(t)
      case Err(_) => None
  }

  /** File `i` yields a test named `name`. */
  predicate LoadsAs(files: seq<Option<RawTest>>, i: int, name: string) {
    0 <= i < |files| && TestFrom(files[i]).Some? && TestFrom(files[i]).value.name == name
  }

  /** The map the loader builds from the files taken in order. */
  function Loaded(files: seq<Option<RawTest>>): map<string, Test> {
    if files == [] then map[]
    else
      var before := Loaded(files[..|files| - 1]);
      match TestFrom(files[|files| - 1])
      case None => before
      case Some(t) => before[t.name := t]
  }

  /**
    The loading loop.  `files` stands for the definition files found, in the
    order they are visited, each already read and decoded (or not).
   */
  method LoadAllTests(files: seq<Option<RawTest>>) returns (tests: map<string, Test>)
    ensures tests == Loaded(files)
  {
    tests := map[];
    var i := 0;
    while i < |files|
      invariant 0 <= i <= |files|
      invariant tests == Loaded(files[..i])
    {
      assert files[..i + 1][..i] == files[..i];
      var file := files[i];
      if file.Some? {
        var parsed := ParseTest(file.value);
        if parsed.Ok? {
          var test := parsed.value;
          tests := tests[test.name := test];
        }
      }
      i := i + 1;
    }
    assert files[..i] == files;
  }

  /** Every loaded test is valid and is filed under its own name. */
  lemma {:induction false} LoadedTestsValid(files: seq<Option<RawTest>>)
    ensures forall name :: name in Loaded(files) ==> Loaded(files)[name].name == name && ValidTest(Loaded(files)[name])
  {
    if files != [] {
      LoadedTestsValid(files[..|files| - 1]);
    }
  }

  /** Loading the files one more keeps what was loaded and adds the last file's test, if any. */
  lemma LoadedStep(files: seq<Option<RawTest>>, name: string)
    requires files != []
    ensures var n := |files| - 1;
      && (LoadsAs(files, n, name) ==> name in Loaded(files) && Loaded(files)[name] == TestFrom(files[n]).value)
      && (!LoadsAs(files, n, name) ==>
            (name in Loaded(files) <==> name in Loaded(files[..n]))
            && (name in Loaded(files) ==> Loaded(files)[name] == Loaded(files[..n])[name]))
      && forall i :: 0 <= i < n ==> (LoadsAs(files[..n], i, name) <==> LoadsAs(files, i, name))
  {}

  /** A name is loaded iff some file yields a test of that name. */
  lemma {:induction false} LoadedNames(files: seq<Option<RawTest>>, name: string)
    ensures name in Loaded(files) <==> exists i :: LoadsAs(files, i, name)
  {
    if files != [] {
      var n := |files| - 1;
      LoadedNames(files[..n], name);
      LoadedStep(files, name);
    }
  }

  /** The test kept for a loaded name is the one from the last file that yields that name. */
  lemma {:induction false} LastDefinitionWins(files: seq<Option<RawTest>>, name: string)
    requires name in Loaded(files)
    ensures exists i ::
              && LoadsAs(files, i, name)
              && Loaded(files)[name] == TestFrom(files[i]).value
              && forall j :: i < j < |files| ==> !LoadsAs(files, j, name)
  {
    var n := |files| - 1;
    LoadedStep(files, name);
    if LoadsAs(files, n, name) {
      assert LoadsAs(files, n, name) && Loaded(files)[name] == TestFrom(files[n]).value;
    } else {
      var init := files[..n];
      LastDefinitionWins(init, name);
      var i :|
        && LoadsAs(init, i, name)
        && Loaded(init)[name] == TestFrom(init[i]).value
        && forall j :: i < j < n ==> !LoadsAs(init, j, name);
      assert init[i] == files[i];
      assert LoadsAs(files, i, name) && Loaded(files)[name] == TestFrom(files[i]).value;
    }
  }
}
