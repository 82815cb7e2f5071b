/** Placeholder resolution in a request path. The path is searched for the
    Java regular expression `\$\{response.(.*)}`: the literal `${response`, any
    one character (the dot is not escaped), then as many characters as
    possible up to a closing brace, none of them a line terminator. The first
    match is replaced by the string that its group, read as an expression,
    evaluates to on the previous response body. */
module Placeholder {
  import opened Values
  import opened Http
  import opened Expressions

  /** The literal start of the pattern: ten characters. */
  const Marker: string := "${response"

  /** The characters the regular expression's `.` does not match. */
  predicate IsLineTerminator(c: char)
  {
    c == '\n' || c == '\r' || c == '\U{85}' || c == '\U{2028}' || c == '\U{2029}'
  }

  /** `${response` occurs in `s` at index `i`. */
  predicate MarkerAt(s: string, i: int)
  {
    0 <= i && i + 10 <= |s| && s[i..i + 10] == Marker
  }

  /** The pattern matches exactly `s[i..j+1]`: the marker at `i`, line-terminator
      free characters from `i + 10` (the one the dot takes) up to `j`, and a
      closing brace at `j`. The group is `s[i + 11..j]`. */
  ghost predicate MatchesSpan(s: string, i: int, j: int)
  {
    0 <= i && i + 11 <= j < |s| && MarkerAt(s, i) && s[j] == '}' &&
    forall k :: i + 10 <= k < j ==> !IsLineTerminator(s[k])
  }

  /** The first index from `k` on that holds a line terminator, or `|s|`. */
  function LineEnd(s: string, k: nat): (e: nat)
    requires k <= |s|
    ensures k <= e <= |s|
    ensures forall m :: k <= m < e ==> !IsLineTerminator(s[m])
    ensures e < |s| ==> IsLineTerminator(s[e])
    decreases |s| - k
  {
    if k == |s| || IsLineTerminator(s[k]) then k else LineEnd(s, k + 1)
  }

  /** The last closing brace in `s[lo..hi]`. */
  function LastBrace(s: string, lo: nat, hi: nat): (r: Option<nat>)
    requires lo <= hi <= |s|
    ensures r.Some? ==> lo <= r.value < hi && s[r.value] == '}'
    ensures r.Some? ==> forall k :: r.value < k < hi ==> s[k] != '}'
    ensures r.None? ==> forall k :: lo <= k < hi ==> s[k] != '}'
    decreases hi - lo
  {
    if lo == hi then None
    else if s[hi - 1] == '}' then Some(hi - 1)
    else LastBrace(s, lo, hi - 1)
  }

  /** The greedy match starting at `i`: the index of its closing brace, which
      is the furthest one the pattern can reach, or `None` if the pattern does
      not match there. */
  function MatchAt(s: string, i: nat): (r: Option<nat>)
    ensures r.Some? ==> MatchesSpan(s, i, r.value)
    ensures r.Some? ==> forall j :: r.value < j ==> !MatchesSpan(s, i, j)
    ensures r.None? ==> forall j :: !MatchesSpan(s, i, j)
  {
    if i + 11 <= |s| && MarkerAt(s, i) && !IsLineTerminator(s[i + 10]) then
      var r := LastBrace(s, i + 11, LineEnd(s, i + 11));
      assert forall j :: MatchesSpan(s, i, j) ==> j < LineEnd(s, i + 11);
      r
    else
      None
  }

  /** Where a match lies: `start` is the `$`, `close` the closing brace. */
  datatype Span = Span(start: nat, close: nat)

  /** `Matcher.find` from `from` on: the leftmost start at which the pattern matches. */
  function FindFrom(s: string, from: nat): (r: Option<Span>)
    requires from <= |s|
    ensures r.Some? ==> from <= r.value.start < |s| && MatchAt(s, r.value.start) == Some(r.value.close)
    ensures r.Some? ==> forall i :: from <= i < r.value.start ==> MatchAt(s, i).None?
    ensures r.None? ==> forall i :: from <= i ==> MatchAt(s, i).None?
    decreases |s| - from
  {
    if from == |s| then
      assert forall i :: from <= i ==> MatchAt(s, i).None?;
      None
    else
      match MatchAt(s, from)
      case Some(close) => Some(Span(from, close))
      case None => FindFrom(s, from + 1)
  }

  /** The first match in the whole path. */
  function Find(s: string): (r: Option<Span>)
    ensures r.Some? ==> r.value.start < |s| && MatchAt(s, r.value.start) == Some(r.value.close)
    ensures r.Some? ==> forall i: nat :: i < r.value.start ==> MatchAt(s, i).None?
    ensures r.None? ==> forall i: nat :: MatchAt(s, i).None?
  {
    FindFrom(s, 0)
  }

  /** `Find` is the regular expression's leftmost, then longest, match: the
      span it reports is a match, no match starts further left, no longer match
      starts at the same place, and it reports none exactly when the pattern
      matches nowhere. */
  lemma FindIsLeftmostLongest(s: string)
    ensures Find(s).Some? ==>
      var span := Find(s).value;
      && MatchesSpan(s, span.start, span.close)
      && (forall i, j :: 0 <= i < span.start ==> !MatchesSpan(s, i, j))
      && (forall j :: span.close < j ==> !MatchesSpan(s, span.start, j))
    ensures Find(s).None? <==> forall i, j :: !MatchesSpan(s, i, j)
  {
    if Find(s).Some? {
      var span := Find(s).value;
      forall i, j | 0 <= i < span.start ensures !MatchesSpan(s, i, j) {
        assert MatchAt(s, i).None?;
      }
    } else {
      forall i, j ensures !MatchesSpan(s, i, j) {
        if 0 <= i {
          assert MatchAt(s, i).None?;
        }
      }
    }
  }

  /** The text of the group: what the expression parser is given. */
  function Group(s: string, span: Span): string
    requires MatchesSpan(s, span.start, span.close)
  {
    s[span.start + 11..span.close]
  }

  /** The resolution in `call`: a path without a match goes through unchanged.
      Otherwise the group is parsed, then evaluated on the previous response's
      body, and the value must be a string, which replaces the whole match;
      there being no previous response, a value that is not a string (`null`
      included) or an evaluation that fails are all failures. */
  function Resolve(path: string, previous: Option<Exchange>): (r: Result<string>)
    ensures Find(path).None? ==> r == Ok(path)
    ensures Find(path).Some? ==>
      var span := Find(path).value;
      var expr := Group(path, span);
      && (Parse(expr).Err? ==> r == Err(EvaluationError))
      && (Parse(expr).Ok? && previous.None? ==> r == Err(NoResponseYet))
      && (previous.Some? ==>
            match Evaluate(expr, previous.value.body)
            case Ok(Str(text)) => r == Ok(path[..span.start] + text + path[span.close + 1..])
            case Ok(_) => r == Err(NotAString)
            case Err(e) => r == Err(e))
  {
    match Find(path)
    case None => Ok(path)
    case Some(span) =>
      var expr := Group(path, span);
      match Parse(expr)
      case Err(e) => Err(e)
      case Ok(_) =>
        if previous.None? then Err(NoResponseYet)
        else
          match Evaluate(expr, previous.value.body)
          case Err(e) => Err(e)
          case Ok(v) => if v.Str? then Ok(path[..span.start] + v.s + path[span.close + 1..]) else Err(NotAString)
  }

  /** A path in which `${response` does not occur is sent as it is. */
  lemma ResolveWithoutMarker(path: string, previous: Option<Exchange>)
    requires forall i :: !MarkerAt(path, i)
    ensures Resolve(path, previous) == Ok(path)
  {
    forall i: nat ensures MatchAt(path, i).None? {
      assert !MarkerAt(path, i);
    }
  }

  /** The match is greedy: on a one-line path, no closing brace follows the
      replaced span, so two placeholders form a single match whose group runs
      from the first to the last brace. */
  lemma GreedyToLastBrace(path: string)
    requires forall k :: 0 <= k < |path| ==> !IsLineTerminator(path[k])
    requires Find(path).Some?
    ensures forall k :: Find(path).value.close < k < |path| ==> path[k] != '}'
  {
    var span := Find(path).value;
    forall k | span.close < k < |path|
      ensures path[k] != '}'
    {
      assert !MatchesSpan(path, span.start, k);
    }
  }

  /** A match with no `${response` to its left and no closing brace to its
      right is the one `Find` reports. */
  lemma FindAt(s: string, i: nat, j: nat)
    requires MatchesSpan(s, i, j)
    requires forall i' :: 0 <= i' < i ==> !MarkerAt(s, i')
    requires forall k :: j < k < |s| ==> s[k] != '}'
    ensures Find(s) == Some(Span(i, j))
  {
    FindIsLeftmostLongest(s);
    var span := Find(s).value;
    assert MarkerAt(s, span.start);
    assert span.start == i;
  }

  /** No `${response` starts before the first `$`. */
  lemma NoMarkerBeforeDollar(s: string, n: nat)
    requires n <= |s|
    requires '$' !in s[..n]
    ensures forall i :: 0 <= i < n ==> !MarkerAt(s, i)
  {
    forall i | 0 <= i < n ensures !MarkerAt(s, i) {
      assert s[i] == s[..n][i];
      if i + 10 <= |s| {
        assert s[i..i + 10][0] == s[i];
      }
    }
  }

  /** The path `prefix + "${response." + expr + "}" + suffix`, with no `$`
      before the placeholder, no `}` after it and no line break inside. */
  predicate OnePlaceholder(path: string, prefix: string, expr: string, suffix: string)
  {
    && path == prefix + Marker + "." + expr + "}" + suffix
    && '$' !in prefix
    && '}' !in suffix
    && forall k :: 0 <= k < |expr| ==> !IsLineTerminator(expr[k])
  }

  /** On such a path the match is the placeholder and its group is `expr`. */
  lemma OnePlaceholderSpan(path: string, prefix: string, expr: string, suffix: string)
    requires OnePlaceholder(path, prefix, expr, suffix)
    ensures Find(path) == Some(Span(|prefix|, |prefix| + 11 + |expr|))
    ensures Group(path, Span(|prefix|, |prefix| + 11 + |expr|)) == expr
    ensures path[..|prefix|] == prefix && path[|prefix| + 12 + |expr|..] == suffix
  {
    var p, c := |prefix|, |prefix| + 11 + |expr|;
    assert path[..p] == prefix;
    assert path[p..p + 10] == Marker;
    assert path[p + 10] == '.';
    assert path[p + 11..c] == expr;
    assert path[c] == '}';
    assert path[c + 1..] == suffix;
    forall k | p + 10 <= k < c ensures !IsLineTerminator(path[k]) {
      if k > p + 10 {
        assert path[k] == path[p + 11..c][k - p - 11];
      }
    }
    assert MatchesSpan(path, p, c);
    NoMarkerBeforeDollar(path, p);
    forall k | c < k < |path| ensures path[k] != '}' {
      assert path[k] == path[c + 1..][k - c - 1];
    }
    FindAt(path, p, c);
  }

  /** Substitution: on a path with one placeholder, a group that does not
      parse fails the step, then a missing response does; otherwise the value
      under the group's expression in the previous body, when it is a string,
      takes the place of the whole placeholder, and anything else fails. */
  lemma ResolveOnePlaceholder(path: string, prefix: string, expr: string, suffix: string, previous: Option<Exchange>)
    requires OnePlaceholder(path, prefix, expr, suffix)
    ensures Resolve(path, previous) ==
      if Parse(expr).Err? then Err(EvaluationError)
      else if previous.None? then Err(NoResponseYet)
      else match Evaluate(expr, previous.value.body)
        case Ok(Str(text)) => Ok(prefix + text + suffix)
        case Ok(_) => Err(NotAString)
        case Err(e) => Err(e)
  {
    OnePlaceholderSpan(path, prefix, expr, suffix);
  }

  /** With `{"id": "7"}` stored, `/items/${response.id}` resolves to `/items/7`. */
  lemma ResolveStringId()
    ensures Resolve("/items/" + Marker + ".id}", Some(Exchange(200, Map(map["id" := Str("7")])))) == Ok("/items/7")
  {
    var path, prefix, expr, suffix := "/items/" + Marker + ".id}", "/items/", "id", "";
    var body := Map(map["id" := Str("7")]);
    IdIsRootKey();
    assert '$' !in prefix;
    assert forall k :: 0 <= k < |expr| ==> !IsLineTerminator(expr[k]);
    assert OnePlaceholder(path, prefix, expr, suffix);
    ResolveOnePlaceholder(path, prefix, expr, suffix, Some(Exchange(200, body)));
    EvaluateName(expr, body);
    assert Parse(expr).Ok?;
    assert prefix + "7" + suffix == "/items/7";
  }

  /** `id` reads the root's key `id`. */
  lemma IdIsRootKey()
    ensures IsRootKey("id")
  {
    assert ToLower("id") == "id";
  }

  /** With `{"id": 7}` stored the same path fails: the integer is not a string. */
  lemma ResolveIntegerIdFails()
    ensures Resolve("/items/" + Marker + ".id}", Some(Exchange(200, Map(map["id" := Int(7)])))) == Err(NotAString)
  {
    var path, prefix, expr, suffix := "/items/" + Marker + ".id}", "/items/", "id", "";
    var body := Map(map["id" := Int(7)]);
    IdIsRootKey();
    assert '$' !in prefix;
    assert forall k :: 0 <= k < |expr| ==> !IsLineTerminator(expr[k]);
    assert OnePlaceholder(path, prefix, expr, suffix);
    ResolveOnePlaceholder(path, prefix, expr, suffix, Some(Exchange(200, body)));
    EvaluateName(expr, body);
    assert Parse(expr).Ok?;
  }

  /** Before any call the same path fails for want of a response. */
  lemma ResolveWithoutResponseFails()
    ensures Resolve("/items/" + Marker + ".id}", None) == Err(NoResponseYet)
  {
    var path, prefix, expr, suffix := "/items/" + Marker + ".id}", "/items/", "id", "";
    IdIsRootKey();
    assert '$' !in prefix;
    assert forall k :: 0 <= k < |expr| ==> !IsLineTerminator(expr[k]);
    assert OnePlaceholder(path, prefix, expr, suffix);
    ResolveOnePlaceholder(path, prefix, expr, suffix, None);
    assert IsChain([expr]);
    ParseJoined([expr]);
    assert JoinDots([expr]) == expr;
  }

  /** `${response.true}` is the Boolean literal, not the key `true`, so the
      step fails on any stored body, even `{"true": "x"}`. */
  lemma ResolveLiteralWordFails(body: Value)
    ensures Resolve("/x/" + Marker + ".true}", Some(Exchange(200, body))) == Err(NotAString)
  {
    var path, prefix, expr, suffix := "/x/" + Marker + ".true}", "/x/", "true", "";
    assert ToLower(expr) == "true";
    assert IsPropertyName(expr) && LeadingLiteral(expr) == Some(Bool(true));
    EvaluateLiteralWord(expr, "x", body);
    assert '$' !in prefix;
    assert forall k :: 0 <= k < |expr| ==> !IsLineTerminator(expr[k]);
    assert OnePlaceholder(path, prefix, expr, suffix);
    ResolveOnePlaceholder(path, prefix, expr, suffix, Some(Exchange(200, body)));
  }

  /** `${response.lt}` does not parse: `lt` is the operator `<`, so the step
      fails whatever was stored, even `{"lt": "x"}`. */
  lemma ResolveOperatorWordFails(previous: Option<Exchange>)
    ensures Resolve("/x/" + Marker + ".lt}", previous) == Err(EvaluationError)
  {
    var path, prefix, expr, suffix := "/x/" + Marker + ".lt}", "/x/", "lt", "";
    assert ToLower(expr) == "lt";
    ReservedWordsDoNotParse([expr], 0);
    assert JoinDots([expr]) == expr;
    assert '$' !in prefix;
    assert forall k :: 0 <= k < |expr| ==> !IsLineTerminator(expr[k]);
    assert OnePlaceholder(path, prefix, expr, suffix);
    ResolveOnePlaceholder(path, prefix, expr, suffix, previous);
  }

  /** The group of two placeholders, `x}/b/${response.y`, does not parse: its
      first piece holds a brace. */
  lemma TwoPlaceholdersGroupFails()
    ensures Parse("x}/b/" + Marker + ".y").Err?
    ensures forall k :: 0 <= k < |"x}/b/" + Marker + ".y"| ==> !IsLineTerminator(("x}/b/" + Marker + ".y")[k])
  {
    var expr := "x}/b/" + Marker + ".y";
    var head := "x}/b/" + Marker;
    assert expr == head + "." + "y";
    SplitDotFreeHead(head, "y");
    SplitDotFree("y");
    assert SplitDots(expr)[0] == head;
    assert !IsIdentPart(head[1]);
  }

  /** Two placeholders make one greedy match: in
      `/a/${response.x}/b/${response.y}` the group runs from the first to the
      last brace and does not parse, so the step fails whatever was stored. */
  lemma TwoPlaceholdersFail(previous: Option<Exchange>)
    ensures Resolve("/a/" + Marker + ".x}/b/" + Marker + ".y}", previous) == Err(EvaluationError)
  {
    var path := "/a/" + Marker + ".x}/b/" + Marker + ".y}";
    var prefix, expr, suffix := "/a/", "x}/b/" + Marker + ".y", "";
    TwoPlaceholdersGroupFails();
    assert '$' !in prefix;
    assert path == prefix + Marker + "." + expr + "}" + suffix;
    assert OnePlaceholder(path, prefix, expr, suffix);
    ResolveOnePlaceholder(path, prefix, expr, suffix, previous);
  }
}
