/** The assertion steps. Each reads the stored response (`None` before the
    first call, where Java dereferences a null `response`) and passes or fails;
    none of them changes anything, so running one twice on the same store
    gives the same verdict. */
module Assertions {
  import opened Values
  import opened Http
  import opened Expressions

  /** `theResponseStatusShouldBe`: the stored status equals the expected one. */
  function ResponseStatusShouldBe(response: Option<Exchange>, status: Int32): (r: Outcome)
    ensures r.Pass? <==> response.Some? && response.value.status == status
    ensures response.None? ==> r == Fail(NoResponseYet)
  {
    if response.None? then Fail(NoResponseYet)
    else if response.value.status == status then Pass
    else Fail(AssertionFailed)
  }

  /** `theResponseIsEmpty`: the stored body is `null`. */
  function ResponseIsEmpty(response: Option<Exchange>): (r: Outcome)
    ensures r.Pass? <==> response.Some? && response.value.body == Null
    ensures response.None? ==> r == Fail(NoResponseYet)
  {
    if response.None? then Fail(NoResponseYet)
    else if response.value.body.Null? then Pass
    else Fail(AssertionFailed)
  }

  /** `assertResponseListSize`, behind `theResponseSizeIs`: the body is a
      non-null list with exactly `size` elements. */
  function AssertResponseListSize(response: Option<Exchange>, size: Int32): (r: Outcome)
    ensures r.Pass? <==> response.Some? && response.value.body.List? && |response.value.body.items| == size
    ensures response.None? ==> r == Fail(NoResponseYet)
  {
    if response.None? then Fail(NoResponseYet)
    else
      match response.value.body
      case List(items) => if |items| == size then Pass else Fail(AssertionFailed)
      case _ => Fail(ShapeMismatch)
  }

  /** `theResponseShouldContainsEmptyArray`: the body is the empty list. */
  function ResponseShouldContainEmptyArray(response: Option<Exchange>): (r: Outcome)
    ensures r.Pass? <==> response.Some? && response.value.body == List([])
  {
    AssertResponseListSize(response, 0)
  }

  /** `assertResponseIsMap`: the body is a non-null map, which is returned. */
  function AssertResponseIsMap(response: Option<Exchange>): (r: Result<map<string, Value>>)
    ensures r.Ok? <==> response.Some? && response.value.body.Map?
    ensures r.Ok? ==> response.value.body == Map(r.value)
    ensures response.None? ==> r == Err(NoResponseYet)
  {
    if response.None? then Err(NoResponseYet)
    else
      match response.value.body
      case Map(fields) => Ok(fields)
      case _ => Err(ShapeMismatch)
  }

  /** `assertResponseContainsOrNotKey`: the body is a map, and whether it has
      `key` is what `shouldContain` says; the map is returned. */
  function AssertResponseContainsOrNotKey(response: Option<Exchange>, key: string, shouldContain: bool): (r: Result<map<string, Value>>)
    ensures r.Ok? <==> response.Some? && response.value.body.Map? && (key in response.value.body.fields <==> shouldContain)
    ensures r.Ok? ==> response.value.body == Map(r.value)
  {
    match AssertResponseIsMap(response)
    case Err(e) => Err(e)
    case Ok(fields) => if (key in fields) == shouldContain then Ok(fields) else Err(AssertionFailed)
  }

  /** `theResponseEntityShouldContains`: the body is a map that has `key`. */
  function ResponseEntityShouldContain(response: Option<Exchange>, key: string): (r: Outcome)
    ensures r.Pass? <==> response.Some? && response.value.body.Map? && key in response.value.body.fields
  {
    if AssertResponseContainsOrNotKey(response, key, true).Ok? then Pass
    else Fail(AssertResponseContainsOrNotKey(response, key, true).error)
  }

  /** `theResponseEntityShouldNotContains`: the body is a map without `key`
      (a null or non-map body fails, it does not pass vacuously). */
  function ResponseEntityShouldNotContain(response: Option<Exchange>, key: string): (r: Outcome)
    ensures r.Pass? <==> response.Some? && response.value.body.Map? && key !in response.value.body.fields
  {
    if AssertResponseContainsOrNotKey(response, key, false).Ok? then Pass
    else Fail(AssertResponseContainsOrNotKey(response, key, false).error)
  }

  /** `theResponseEntityShouldContainsWithValue(String, String)`: the body
      map has `key`, and it holds exactly the string `value`. */
  function ResponseEntityShouldContainWithStringValue(response: Option<Exchange>, key: string, value: string): (r: Outcome)
    ensures r.Pass? <==>
      response.Some? && response.value.body.Map? && key in response.value.body.fields &&
      response.value.body.fields[key] == Str(value)
  {
    match AssertResponseContainsOrNotKey(response, key, true)
    case Err(e) => Fail(e)
    case Ok(fields) => if fields[key] == Str(value) then Pass else Fail(AssertionFailed)
  }

  /** `theResponseEntityShouldContainsWithValue(String, Integer)`: the body
      map has `key`, and it holds exactly the integer `value`. */
  function ResponseEntityShouldContainWithIntValue(response: Option<Exchange>, key: string, value: Int32): (r: Outcome)
    ensures r.Pass? <==>
      response.Some? && response.value.body.Map? && key in response.value.body.fields &&
      response.value.body.fields[key] == Int(value)
  {
    match AssertResponseContainsOrNotKey(response, key, true)
    case Err(e) => Fail(e)
    case Ok(fields) => if fields[key] == Int(value) then Pass else Fail(AssertionFailed)
  }

  /** Equality is sensitive to the kind of value: a string literal never
      matches an integer field and an integer literal never matches a string
      field, even one spelling the same number; a field that matches passes
      both steps only if it is found, and a `null` field matches neither. */
  lemma ValueEqualityIsTyped(response: Option<Exchange>, key: string, text: string, n: Int32)
    requires response.Some? && response.value.body.Map? && key in response.value.body.fields
    ensures response.value.body.fields[key].Int? ==> ResponseEntityShouldContainWithStringValue(response, key, text).Fail?
    ensures response.value.body.fields[key].Str? ==> ResponseEntityShouldContainWithIntValue(response, key, n).Fail?
    ensures response.value.body.fields[key] == Null ==>
      ResponseEntityShouldContainWithStringValue(response, key, text).Fail? &&
      ResponseEntityShouldContainWithIntValue(response, key, n).Fail? &&
      ResponseEntityShouldContain(response, key).Pass?
  {
  }

  /** The qualifier before a count: none, or one of four phrases. */
  datatype Comparison = Equal | AtLeast | AtMost | MoreThan | LessThan

  /** The `compareCounts` chain read as a parser: each of the four phrases
      selects its operator, and no qualifier or any other text is equality. */
  function ParseComparison(qualifier: Option<string>): (c: Comparison)
    ensures c == AtLeast <==> qualifier == Some("at least")
    ensures c == AtMost <==> qualifier == Some("at most")
    ensures c == MoreThan <==> qualifier == Some("more than")
    ensures c == LessThan <==> qualifier == Some("less than")
  {
    if qualifier == Some("at least") then AtLeast
    else if qualifier == Some("at most") then AtMost
    else if qualifier == Some("more than") then MoreThan
    else if qualifier == Some("less than") then LessThan
    else Equal
  }

  /** The relation an operator puts between the actual and the expected count. */
  predicate CountHolds(c: Comparison, expected: int, actual: int)
  {
    match c
    case Equal => actual == expected
    case AtLeast => actual >= expected
    case AtMost => actual <= expected
    case MoreThan => actual > expected
    case LessThan => actual < expected
  }

  /** `compareCounts`: the actual count stands in the relation the qualifier
      names to the expected one. */
  function CompareCounts(qualifier: Option<string>, expected: Int32, actual: int): (r: Outcome)
    ensures qualifier == Some("at least") ==> (r.Pass? <==> actual >= expected)
    ensures qualifier == Some("at most") ==> (r.Pass? <==> actual <= expected)
    ensures qualifier == Some("more than") ==> (r.Pass? <==> actual > expected)
    ensures qualifier == Some("less than") ==> (r.Pass? <==> actual < expected)
    ensures qualifier !in {Some("at least"), Some("at most"), Some("more than"), Some("less than")} ==>
      (r.Pass? <==> actual == expected)
    ensures r.Fail? ==> r.error == AssertionFailed
  {
    if CountHolds(ParseComparison(qualifier), expected, actual) then Pass else Fail(AssertionFailed)
  }

  /** `theResponseEntityContainEntities`: the body is a map, `entityName` is a
      key of it, and its value is a list whose length passes `compareCounts`;
      that list is returned. A map value is not a collection. */
  function ResponseEntityContainEntities(response: Option<Exchange>, entityName: string, qualifier: Option<string>, childCount: Int32): (r: Result<Value>)
    ensures r.Ok? <==>
      response.Some? && response.value.body.Map? && entityName in response.value.body.fields &&
      response.value.body.fields[entityName].List? &&
      CompareCounts(qualifier, childCount, |response.value.body.fields[entityName].items|).Pass?
    ensures r.Ok? ==> r.value.List? && r.value == response.value.body.fields[entityName]
  {
    match AssertResponseContainsOrNotKey(response, entityName, true)
    case Err(e) => Err(e)
    case Ok(fields) =>
      var entity := fields[entityName];
      if !entity.List? then Err(ShapeMismatch)
      else
        match CompareCounts(qualifier, childCount, |entity.items|)
        case Fail(e) => Err(e)
        case Pass => Ok(entity)
  }

  /** `theResponseEntityContain`: the body is a map, the expression `entity`
      evaluates on it to a map, and that map holds a non-null value under
      `key`, which is returned. */
  function ResponseEntityContain(response: Option<Exchange>, entity: string, key: string): (r: Result<Value>)
    ensures r.Ok? <==>
      response.Some? && response.value.body.Map? &&
      Evaluate(entity, response.value.body).Ok? && Evaluate(entity, response.value.body).value.Map? &&
      key in Evaluate(entity, response.value.body).value.fields &&
      Evaluate(entity, response.value.body).value.fields[key] != Null
    ensures r.Ok? ==> r.value == Evaluate(entity, response.value.body).value.fields[key]
  {
    match AssertResponseIsMap(response)
    case Err(e) => Err(e)
    case Ok(fields) =>
      match Evaluate(entity, Map(fields))
      case Err(e) => Err(e)
      case Ok(found) =>
        if !found.Map? then Err(ShapeMismatch)
        else if key !in found.fields || found.fields[key] == Null then Err(AssertionFailed)
        else Ok(found.fields[key])
  }

  /** `theResponseEntityContainKeyWithValueString`: the nested value is the string `value`. */
  function ResponseEntityContainKeyWithStringValue(response: Option<Exchange>, entity: string, key: string, value: string): (r: Outcome)
    ensures r.Pass? <==> ResponseEntityContain(response, entity, key) == Ok(Str(value))
  {
    match ResponseEntityContain(response, entity, key)
    case Err(e) => Fail(e)
    case Ok(v) => if v == Str(value) then Pass else Fail(AssertionFailed)
  }

  /** `theResponseEntityContainKeyWithValueInt`: the nested value is the integer `value`. */
  function ResponseEntityContainKeyWithIntValue(response: Option<Exchange>, entity: string, key: string, value: Int32): (r: Outcome)
    ensures r.Pass? <==> ResponseEntityContain(response, entity, key) == Ok(Int(value))
  {
    match ResponseEntityContain(response, entity, key)
    case Err(e) => Fail(e)
    case Ok(v) => if v == Int(value) then Pass else Fail(AssertionFailed)
  }

  /** A key mapped to `null` satisfies the top-level "contains" step but not
      the nested lookup: with the body `{"a": null, "e": {"a": null}}`, the
      first passes for `a` while the lookup of `a` under `e` fails. */
  lemma NullValueContainedButNotFound()
    ensures ResponseEntityShouldContain(Some(Exchange(200, Map(map["a" := Null, "e" := Map(map["a" := Null])]))), "a").Pass?
    ensures ResponseEntityContain(Some(Exchange(200, Map(map["a" := Null, "e" := Map(map["a" := Null])]))), "e", "a").Err?
  {
    var body := Map(map["a" := Null, "e" := Map(map["a" := Null])]);
    assert ToLower("e") == "e";
    EvaluateName("e", body);
  }

  /** The body `{"id": 42, "items": [1, 2, 3]}`. */
  const ThreeItems: Option<Exchange> := Some(Exchange(200, Map(map["id" := Int(42), "items" := List([Int(1), Int(2), Int(3)])])))

  /** With three items stored: "at least 2" items passes, "more than 3"
      fails, and an unqualified count passes for 3 and for no other number. */
  lemma ItemCountExamples(n: Int32)
    ensures ResponseEntityContainEntities(ThreeItems, "items", Some("at least"), 2).Ok?
    ensures ResponseEntityContainEntities(ThreeItems, "items", Some("more than"), 3).Err?
    ensures ResponseEntityContainEntities(ThreeItems, "items", None, n).Ok? <==> n == 3
  {
  }
}
