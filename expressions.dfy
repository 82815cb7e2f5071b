/** The part of the Spring expression language that the steps use: a chain of
    property names separated by dots (`a.b.c`), parsed with `parseRaw` and
    evaluated with `getValue` against a root value, each property read through
    the map accessor. */
module Expressions {
  import opened Values
  import opened PropertyAccess
  import opened Http

  predicate IsIdentStart(c: char)
  {
    'a' <= c <= 'z' || 'A' <= c <= 'Z' || c == '_' || c == '$'
  }

  predicate IsIdentPart(c: char)
  {
    IsIdentStart(c) || '0' <= c <= '9'
  }

  /** A property name as the expression tokenizer reads it. */
  predicate IsIdentifier(s: string)
  {
    |s| > 0 && IsIdentStart(s[0]) && forall k :: 1 <= k < |s| ==> IsIdentPart(s[k])
  }

  /** The alternative operator names (`lt` for `<`, `div` for `/`, ...). The
      tokenizer turns each into an operator token whatever its case, so none of
      them can name a property anywhere in a chain. */
  predicate IsOperatorWord(s: string)
  {
    ToLower(s) in {"div", "eq", "ge", "gt", "le", "lt", "mod", "ne", "not"}
  }

  /** A name that the parser reads as a property after a dot. */
  predicate IsPropertyName(s: string)
  {
    IsIdentifier(s) && !IsOperatorWord(s)
  }

  /** Words that start a constructor call (`new`, any case) or a type
      reference (`T`) when they come first; both need an argument list that a
      dotted chain never has. */
  predicate IsStartKeyword(s: string)
  {
    ToLower(s) == "new" || s == "T"
  }

  /** The literal that a first word `true`, `false` or `null` (any case)
      denotes; the chain then continues on that value instead of the root. */
  function LeadingLiteral(s: string): (r: Option<Value>)
    ensures r.Some? ==> r.value == Bool(true) || r.value == Bool(false) || r.value == Null
    ensures r == Some(Null) <==> ToLower(s) == "null"
  {
    var w := ToLower(s);
    if w == "true" then Some(Bool(true))
    else if w == "false" then Some(Bool(false))
    else if w == "null" then Some(Null)
    else None
  }

  /** A first word that reads the root's key of the same name. */
  predicate IsRootKey(s: string)
  {
    IsPropertyName(s) && !IsStartKeyword(s) && LeadingLiteral(s).None?
  }

  /** The pieces of `s` between its dots, empty pieces included. */
  function SplitDots(s: string): (segs: seq<string>)
    ensures |segs| > 0
    decreases |s|
  {
    if s == [] then [""]
    else if s[0] == '.' then [""] + SplitDots(s[1..])
    else
      var rest := SplitDots(s[1..]);
      [[s[0]] + rest[0]] + rest[1..]
  }

  /** The segments written back with a dot between each two. */
  function JoinDots(segs: seq<string>): string
    requires |segs| > 0
    decreases |segs|
  {
    if |segs| == 1 then segs[0] else segs[0] + "." + JoinDots(segs[1..])
  }

  /** Splitting and joining undo each other: no character of the expression
      is lost or invented by the split. */
  lemma {:induction false} SplitThenJoin(s: string)
    ensures JoinDots(SplitDots(s)) == s
    decreases |s|
  {
    if s == [] {
    } else if s[0] == '.' {
      SplitThenJoin(s[1..]);
      var rest := SplitDots(s[1..]);
      assert SplitDots(s) == [""] + rest;
      assert JoinDots([""] + rest) == "" + "." + JoinDots(rest);
    } else {
      SplitThenJoin(s[1..]);
      var rest := SplitDots(s[1..]);
      var segs := [[s[0]] + rest[0]] + rest[1..];
      assert SplitDots(s) == segs;
      if |rest| == 1 {
        assert JoinDots(segs) == [s[0]] + rest[0];
      } else {
        assert segs[1..] == rest[1..];
        assert JoinDots(rest) == rest[0] + "." + JoinDots(rest[1..]);
        assert JoinDots(segs) == [s[0]] + rest[0] + "." + JoinDots(rest[1..]);
      }
    }
  }

  /** A dot-free string splits to itself. */
  lemma {:induction false} SplitDotFree(a: string)
    requires '.' !in a
    ensures SplitDots(a) == [a]
    decreases |a|
  {
    if a != [] {
      SplitDotFree(a[1..]);
      assert [a[0]] + a[1..] == a;
    }
  }

  /** A dot-free head splits off: `a.b` splits to `a` followed by the split of `b`. */
  lemma {:induction false} SplitDotFreeHead(a: string, b: string)
    requires '.' !in a
    ensures SplitDots(a + "." + b) == [a] + SplitDots(b)
    decreases |a|
  {
    if a == [] {
      assert a + "." + b == ['.'] + b;
      assert (['.'] + b)[1..] == b;
    } else {
      var s := a + "." + b;
      assert s[0] == a[0] && s[1..] == a[1..] + "." + b;
      SplitDotFreeHead(a[1..], b);
      assert [a[0]] + a[1..] == a;
    }
  }

  /** Joining dot-free segments and splitting again gives the segments back. */
  lemma {:induction false} JoinThenSplit(segs: seq<string>)
    requires |segs| > 0
    requires forall k :: 0 <= k < |segs| ==> '.' !in segs[k]
    ensures SplitDots(JoinDots(segs)) == segs
    decreases |segs|
  {
    if |segs| == 1 {
      SplitDotFree(segs[0]);
    } else {
      JoinThenSplit(segs[1..]);
      SplitDotFreeHead(segs[0], JoinDots(segs[1..]));
      assert [segs[0]] + segs[1..] == segs;
    }
  }

  /** Names that form a chain the parser accepts. */
  predicate IsChain(segs: seq<string>)
  {
    |segs| > 0 && (forall k :: 0 <= k < |segs| ==> IsPropertyName(segs[k])) && !IsStartKeyword(segs[0])
  }

  /** `parseRaw`: the expression must be property names joined by dots, and
      its first word must not start a constructor call or a type reference;
      anything else (an empty name, a stray character, an operator word) does
      not parse. */
  function Parse(expr: string): (r: Result<seq<string>>)
    ensures r.Ok? <==> IsChain(SplitDots(expr))
    ensures r.Ok? ==> |r.value| > 0 && JoinDots(r.value) == expr
    ensures r.Err? ==> r.error == EvaluationError
  {
    var segs := SplitDots(expr);
    SplitThenJoin(expr);
    if IsChain(segs) then Ok(segs) else Err(EvaluationError)
  }

  /** Parsing recovers the property names an expression was written from. */
  lemma ParseJoined(segs: seq<string>)
    requires IsChain(segs)
    ensures Parse(JoinDots(segs)) == Ok(segs)
  {
    forall k | 0 <= k < |segs| ensures '.' !in segs[k] {
      assert IsIdentifier(segs[k]);
      assert forall j :: 0 <= j < |segs[k]| ==> IsIdentPart(segs[k][j]);
    }
    JoinThenSplit(segs);
  }

  /** An operator word anywhere in a chain, or a constructor or type keyword
      at its head, makes the whole expression fail to parse. */
  lemma {:induction false} ReservedWordsDoNotParse(segs: seq<string>, k: nat)
    requires k < |segs|
    requires forall j :: 0 <= j < |segs| ==> '.' !in segs[j]
    requires IsOperatorWord(segs[k]) || (k == 0 && IsStartKeyword(segs[0]))
    ensures Parse(JoinDots(segs)) == Err(EvaluationError)
  {
    JoinThenSplit(segs);
  }

  /** `getValue`: read the names one after the other, starting at `target`;
      a name the accessor cannot read is an evaluation error. */
  function EvalSegments(segs: seq<string>, target: Value): (r: Result<Value>)
    ensures r.Err? ==> r.error == EvaluationError
    decreases |segs|
  {
    if segs == [] then Ok(target)
    else if CanRead(target, segs[0]) then EvalSegments(segs[1..], Read(target, segs[0]))
    else Err(EvaluationError)
  }

  /** Evaluating `p.q` is evaluating `p`, then `q` on its value. */
  lemma {:induction false} EvalSegmentsAppend(p: seq<string>, q: seq<string>, target: Value)
    ensures EvalSegments(p + q, target) ==
      match EvalSegments(p, target)
      case Ok(v) => EvalSegments(q, v)
      case Err(e) => Err(e)
    decreases |p|
  {
    if p == [] {
      assert p + q == q;
    } else {
      assert (p + q)[0] == p[0] && (p + q)[1..] == p[1..] + q;
      if CanRead(target, p[0]) {
        EvalSegmentsAppend(p[1..], q, Read(target, p[0]));
      }
    }
  }

  /** Every step of a successful evaluation is a lookup of a present key in a
      map: the first name is a key of the root map, and the rest evaluate on
      the value it holds. Failure is always an evaluation error. */
  lemma {:induction false} EvalSegmentsReadsMapKeys(segs: seq<string>, target: Value)
    requires |segs| > 0
    ensures EvalSegments(segs, target).Ok? <==>
      target.Map? && segs[0] in target.fields && EvalSegments(segs[1..], target.fields[segs[0]]).Ok?
    ensures EvalSegments(segs, target).Err? ==> EvalSegments(segs, target).error == EvaluationError
    decreases |segs|
  {
    if CanRead(target, segs[0]) && |segs| > 1 {
      EvalSegmentsReadsMapKeys(segs[1..], target.fields[segs[0]]);
    }
  }

  /** Parse the expression, then evaluate it: a leading literal word gives
      its literal, on which the rest of the chain is read; any other chain is
      read from `root`. */
  function Evaluate(expr: string, root: Value): (r: Result<Value>)
    ensures Parse(expr).Err? ==> r == Err(EvaluationError)
    ensures r.Err? ==> r.error == EvaluationError
    ensures Parse(expr).Ok? && LeadingLiteral(Parse(expr).value[0]).None? ==>
      r == EvalSegments(Parse(expr).value, root)
  {
    match Parse(expr)
    case Err(e) => Err(e)
    case Ok(segs) =>
      match LeadingLiteral(segs[0])
      case Some(v) => EvalSegments(segs[1..], v)
      case None => EvalSegments(segs, root)
  }

  /** A single property name evaluates to the value the accessor reads. */
  lemma EvaluateName(name: string, root: Value)
    requires IsRootKey(name)
    ensures Evaluate(name, root) == if CanRead(root, name) then Ok(Read(root, name)) else Err(EvaluationError)
  {
    assert IsChain([name]);
    ParseJoined([name]);
    assert JoinDots([name]) == name;
    assert Parse(name) == Ok([name]);
    assert [name][1..] == [];
    if CanRead(root, name) {
      assert EvalSegments([name], root) == EvalSegments([], Read(root, name));
    }
  }

  /** A dotted path `a.b` evaluates to the value nested under `a` and then `b`. */
  lemma EvaluateNested(a: string, b: string, root: Value)
    requires IsRootKey(a) && IsPropertyName(b)
    ensures Evaluate(a + "." + b, root) ==
      if root.Map? && a in root.fields && root.fields[a].Map? && b in root.fields[a].fields
      then Ok(root.fields[a].fields[b])
      else Err(EvaluationError)
  {
    assert IsChain([a, b]);
    ParseJoined([a, b]);
    assert JoinDots([a, b]) == a + "." + JoinDots([b]);
    assert Parse(a + "." + b) == Ok([a, b]);
    assert [a, b][1..] == [b] && [b][1..] == [];
    if CanRead(root, a) {
      assert EvalSegments([a, b], root) == EvalSegments([b], Read(root, a));
      if CanRead(Read(root, a), b) {
        assert EvalSegments([b], Read(root, a)) == EvalSegments([], Read(Read(root, a), b));
      }
    }
  }

  /** A leading `true`, `false` or `null` is that literal whatever the root
      holds, even a key of the same name; reading a property of it fails. */
  lemma EvaluateLiteralWord(word: string, b: string, root: Value)
    requires IsPropertyName(word) && LeadingLiteral(word).Some?
    requires IsPropertyName(b)
    ensures Evaluate(word, root) == Ok(LeadingLiteral(word).value)
    ensures Evaluate(word + "." + b, root) == Err(EvaluationError)
  {
    assert !IsStartKeyword(word) by {
      assert ToLower(word) != "new" && |word| != 1;
    }
    assert IsChain([word]) && IsChain([word, b]);
    ParseJoined([word]);
    assert JoinDots([word]) == word;
    ParseJoined([word, b]);
    assert JoinDots([word, b]) == word + "." + JoinDots([b]);
    assert [word, b][1..] == [b];
  }
}
