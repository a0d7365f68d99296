/** The test helper `prepareCases` (tests/utils.js): selects the test cases flagged `only` if there
    are any, drops the ones flagged `skip`, and strips the three bookkeeping fields. */
module TestUtils {
  import opened Wrappers
  import opened Seqs

  /** The JavaScript values a test-case field can hold, as far as truthiness goes. */
  datatype JsValue = Undefined | Null | Bool(b: bool) | Number(n: int) | Str(s: string) | Object

  /** A test case: an object from field names to values. */
  type TestCase = map<string, JsValue>

  /** The two lists `prepareCases` returns. */
  datatype Prepared = Prepared(valid: seq<TestCase>, invalid: seq<TestCase>)

  /** The `TypeError` that `filter` throws on an undefined list. */
  datatype PrepareError = ListUndefined

  /** JavaScript truthiness. */
  predicate Truthy(v: JsValue) {
    match v
    case Undefined => false
    case Null => false
    case Bool(b) => b
    case Number(n) => n != 0
    case Str(s) => s != []
    case Object => true
  }

  /** A destructured field with the default `false`: the default replaces a missing and an
      `undefined` field, not a `null` one. */
  function FieldOrFalse(tc: TestCase, field: string): (r: JsValue)
    ensures field !in tc || tc[field] == Undefined ==> r == Bool(false)
    ensures field in tc && tc[field] != Undefined ==> r == tc[field]
    ensures r != Undefined
  {
    if field in tc && tc[field] != Undefined then tc[field] else Bool(false)
  }

  /** `({ only = false }) => only` */
  function IsStandalone(tc: TestCase): (b: bool)
    ensures b <==> "only" in tc && Truthy(tc["only"])
  {
    Truthy(FieldOrFalse(tc, "only"))
  }

  /** `({ skip = false }) => !skip` */
  function IsKept(tc: TestCase): (b: bool)
    ensures b <==> "skip" !in tc || !Truthy(tc["skip"])
  {
    !Truthy(FieldOrFalse(tc, "skip"))
  }

  /** Standalone and not skipped. */
  predicate IsStandaloneKept(tc: TestCase) {
    IsStandalone(tc) && IsKept(tc)
  }

  const Bookkeeping: set<string> := {"only", "skip", "title"}

  /** `omit(["only", "skip", "title"])` */
  function Omit(tc: TestCase): (r: TestCase)
    ensures r.Keys == tc.Keys - Bookkeeping
    ensures forall f :: f in r ==> r[f] == tc[f]
    ensures "only" !in r && "skip" !in r && "title" !in r
  {
    map f | f in tc && f !in Bookkeeping :: tc[f]
  }

  /** `prepareReturnValue(v, i)` */
  function PrepareReturnValue(v: seq<TestCase>, i: seq<TestCase>): (r: Prepared)
    ensures |r.valid| <= |v| && |r.invalid| <= |i|
    ensures (forall k :: 0 <= k < |v| ==> IsKept(v[k])) ==> r.valid == Map(Omit, v)
    ensures (forall k :: 0 <= k < |i| ==> IsKept(i[k])) ==> r.invalid == Map(Omit, i)
    ensures forall k :: 0 <= k < |r.valid| ==>
              exists j :: 0 <= j < |v| && IsKept(v[j]) && r.valid[k] == Omit(v[j])
    ensures forall k :: 0 <= k < |r.invalid| ==>
              exists j :: 0 <= j < |i| && IsKept(i[j]) && r.invalid[k] == Omit(i[j])
    ensures forall k :: 0 <= k < |r.valid| ==> r.valid[k].Keys !! Bookkeeping
    ensures forall k :: 0 <= k < |r.invalid| ==> r.invalid[k].Keys !! Bookkeeping
  {
    Prepared(KeptOmitted(v), KeptOmitted(i))
  }

  /** One list of `prepareReturnValue`: the kept cases, bookkeeping omitted. They are the whole
      list when nothing is skipped, and in any case each one is the omitted form of a kept input. */
  function KeptOmitted(s: seq<TestCase>): (r: seq<TestCase>)
    ensures |r| <= |s|
    ensures (forall k :: 0 <= k < |s| ==> IsKept(s[k])) ==> r == Map(Omit, s)
    ensures forall k :: 0 <= k < |r| ==> exists j :: 0 <= j < |s| && IsKept(s[j]) && r[k] == Omit(s[j])
    ensures forall k :: 0 <= k < |r| ==> r[k].Keys !! Bookkeeping
  {
    KeptCasesOmitted(s);
    Map(Omit, Filter(IsKept, s))
  }

  /** The facts behind `KeptOmitted`, stated of its body. */
  lemma KeptCasesOmitted(s: seq<TestCase>)
    ensures (forall k :: 0 <= k < |s| ==> IsKept(s[k])) ==> Map(Omit, Filter(IsKept, s)) == Map(Omit, s)
    ensures forall k :: 0 <= k < |Map(Omit, Filter(IsKept, s))| ==>
              exists j :: 0 <= j < |s| && IsKept(s[j]) && Map(Omit, Filter(IsKept, s))[k] == Omit(s[j])
  {
    if forall k :: 0 <= k < |s| ==> IsKept(s[k]) {
      FilterKeepsAll(IsKept, s);
    }
    forall k | 0 <= k < |Map(Omit, Filter(IsKept, s))|
      ensures exists j :: 0 <= j < |s| && IsKept(s[j]) && Map(Omit, Filter(IsKept, s))[k] == Omit(s[j])
    {
      var j := FilterSource(IsKept, s, k);
      assert Map(Omit, Filter(IsKept, s))[k] == Omit(s[j]);
    }
  }

  /** `prepareCases(valid, invalid)` as written: `valid` defaults to `[]`, an undefined `invalid`
      makes `filter` throw, and the emptiness test looks at the standalone valid cases twice. */
  function PrepareCases(valid: Option<seq<TestCase>>, invalid: Option<seq<TestCase>>): (r: Result<Prepared, PrepareError>)
    ensures r.Failure? <==> invalid.None?
    ensures r.Success? ==> |r.value.valid| <= |valid.GetOr([])| && |r.value.invalid| <= |invalid.value|
  {
    var v := valid.GetOr([]);
    match invalid
    case None => Failure(ListUndefined)
    case Some(i) =>
      var standaloneValid := Filter(IsStandalone, v);
      var standaloneInvalid := Filter(IsStandalone, i);
      if standaloneValid == [] && standaloneValid == [] then Success(PrepareReturnValue(v, i))
      else Success(PrepareReturnValue(standaloneValid, standaloneInvalid))
  }

  /** `prepareCases` with the emptiness test the comment describes: there are no standalone test
      cases in either list. */
  function PrepareCasesIntended(valid: Option<seq<TestCase>>, invalid: Option<seq<TestCase>>): (r: Result<Prepared, PrepareError>)
    ensures r.Failure? <==> invalid.None?
    ensures r.Success? ==> |r.value.valid| <= |valid.GetOr([])| && |r.value.invalid| <= |invalid.value|
  {
    var v := valid.GetOr([]);
    match invalid
    case None => Failure(ListUndefined)
    case Some(i) =>
      var standaloneValid := Filter(IsStandalone, v);
      var standaloneInvalid := Filter(IsStandalone, i);
      if standaloneValid == [] && standaloneInvalid == [] then Success(PrepareReturnValue(v, i))
      else Success(PrepareReturnValue(standaloneValid, standaloneInvalid))
  }

  // ---------------------------------------------------------------------------
  // Properties
  // ---------------------------------------------------------------------------

  /** Selecting standalone cases and then dropping skipped ones is one filter. */
  lemma StandaloneThenKept(s: seq<TestCase>)
    ensures Filter(IsKept, Filter(IsStandalone, s)) == Filter(IsStandaloneKept, s)
  {
    FilterTwice(IsStandalone, IsKept, IsStandaloneKept, s);
  }

  /** Without a standalone valid case, every non-skipped case of both lists is kept, in order,
      whatever the invalid cases say about `only`. */
  lemma NoStandaloneKeepsKept(valid: seq<TestCase>, invalid: seq<TestCase>)
    requires forall k :: 0 <= k < |valid| ==> !IsStandalone(valid[k])
    ensures PrepareCases(Some(valid), Some(invalid))
            == Success(Prepared(Map(Omit, Filter(IsKept, valid)), Map(Omit, Filter(IsKept, invalid))))
  {
    FilterEmptyIff(IsStandalone, valid);
  }

  /** With a standalone valid case, only the standalone, non-skipped cases of both lists are kept. */
  lemma StandaloneKeepsFlagged(valid: seq<TestCase>, invalid: seq<TestCase>, k: nat)
    requires k < |valid| && IsStandalone(valid[k])
    ensures PrepareCases(Some(valid), Some(invalid))
            == Success(Prepared(Map(Omit, Filter(IsStandaloneKept, valid)), Map(Omit, Filter(IsStandaloneKept, invalid))))
  {
    FilterEmptyIff(IsStandalone, valid);
    StandaloneThenKept(valid);
    StandaloneThenKept(invalid);
  }

  /** Each returned case is a non-skipped input case without its bookkeeping fields, and a
      standalone one when some valid case is standalone. */
  lemma ReturnedCasesFromInput(valid: seq<TestCase>, invalid: seq<TestCase>, k: nat)
    requires PrepareCases(Some(valid), Some(invalid)).Success?
    requires k < |PrepareCases(Some(valid), Some(invalid)).value.valid|
    ensures exists j :: 0 <= j < |valid| && IsKept(valid[j])
              && PrepareCases(Some(valid), Some(invalid)).value.valid[k] == Omit(valid[j])
              && ((exists m :: 0 <= m < |valid| && IsStandalone(valid[m])) ==> IsStandalone(valid[j]))
  {
    var r := PrepareCases(Some(valid), Some(invalid)).value;
    if exists m :: 0 <= m < |valid| && IsStandalone(valid[m]) {
      var m :| 0 <= m < |valid| && IsStandalone(valid[m]);
      StandaloneKeepsFlagged(valid, invalid, m);
      var j := FilterSource(IsStandaloneKept, valid, k);
      assert r.valid[k] == Omit(valid[j]);
    } else {
      NoStandaloneKeepsKept(valid, invalid);
      var j := FilterSource(IsKept, valid, k);
      assert r.valid[k] == Omit(valid[j]);
    }
  }

  /** No returned case carries `only`, `skip` or `title`. */
  lemma BookkeepingOmitted(valid: Option<seq<TestCase>>, invalid: Option<seq<TestCase>>)
    requires PrepareCases(valid, invalid).Success?
    ensures var r := PrepareCases(valid, invalid).value;
            && (forall k :: 0 <= k < |r.valid| ==> r.valid[k].Keys !! Bookkeeping)
            && (forall k :: 0 <= k < |r.invalid| ==> r.invalid[k].Keys !! Bookkeeping)
  {
  }

  /** An omitted `valid` list reads as `[]`: only the non-skipped invalid cases remain. */
  lemma UndefinedValidIsEmpty(invalid: seq<TestCase>)
    ensures PrepareCases(None, Some(invalid)) == Success(Prepared([], Map(Omit, Filter(IsKept, invalid))))
  {
  }

  /** The intended reading: standalone mode is on exactly when either list has a standalone case. */
  lemma IntendedStandaloneEitherList(valid: seq<TestCase>, invalid: seq<TestCase>)
    ensures var r := PrepareCasesIntended(Some(valid), Some(invalid));
            && ((forall k :: 0 <= k < |valid| ==> !IsStandalone(valid[k]))
                && (forall k :: 0 <= k < |invalid| ==> !IsStandalone(invalid[k]))
                ==> r == Success(Prepared(Map(Omit, Filter(IsKept, valid)), Map(Omit, Filter(IsKept, invalid)))))
            && ((exists k :: 0 <= k < |valid| && IsStandalone(valid[k]))
                || (exists k :: 0 <= k < |invalid| && IsStandalone(invalid[k]))
                ==> r == Success(Prepared(Map(Omit, Filter(IsStandaloneKept, valid)), Map(Omit, Filter(IsStandaloneKept, invalid)))))
  {
    FilterEmptyIff(IsStandalone, valid);
    FilterEmptyIff(IsStandalone, invalid);
    StandaloneThenKept(valid);
    StandaloneThenKept(invalid);
  }

  /** Flagging only an invalid case `only` selects nothing as written, while the intended helper
      runs that case alone. */
  lemma InvalidOnlyIgnored()
    ensures PrepareCases(Some([map[]]), Some([map["only" := Bool(true)]]))
            == Success(Prepared([map[]], [map[]]))
    ensures PrepareCasesIntended(Some([map[]]), Some([map["only" := Bool(true)]]))
            == Success(Prepared([], [map[]]))
  {
    var valid: seq<TestCase> := [map[]];
    var invalid: seq<TestCase> := [map["only" := Bool(true)]];
    assert !IsStandalone(valid[0]) && IsKept(valid[0]);
    assert IsStandalone(invalid[0]) && IsKept(invalid[0]);
    assert Omit(valid[0]) == map[] && Omit(invalid[0]) == map[];
    assert Filter(IsKept, valid) == valid && Filter(IsKept, invalid) == invalid;
    assert Filter(IsStandalone, valid) == [];
    assert Filter(IsStandalone, invalid) == invalid;
  }
}
