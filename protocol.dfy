/** The result protocol every parser speaks: the four states, the outcome
    records (successful and aborted results), the intermediate signals
    (tokens and input requests), parser options, single-character tests and
    the helpers that build all of these. */
module Protocol {

  datatype Option<T> = None | Some(value: T)

  /** Which combinator produced an outcome. */
  datatype ParserType = TAG | TAKE | SEQ | OR | REPEAT

  /** The numeric states carried by every record (0 to 3, in this order). */
  datatype ParserState = SUCCESSFUL | ABORTED | EXPECT_NEW_INPUT | YIELD

  function TypeName(t: ParserType): (name: string)
  {
    match t
    case TAG => "TAG"
    case TAKE => "TAKE"
    case SEQ => "SEQ"
    case OR => "OR"
    case REPEAT => "REPEAT"
  }

  const EXPECT_NEW_INPUT_MESSAGE: string := "Parser expects new value"
  const OR_ERROR_MESSAGE: string := "At least one parser must succeed for the 'OR' operation to be valid."
  /** The message of a below-minimum repeat. */
  const REPEAT_ERROR_MESSAGE: string := "repeat error"

  /** A single-character test: an exact string, a predicate, or a regular
      expression. Predicates and regular expressions are opaque: the model
      only knows which characters they accept and how they print. */
  datatype Test =
    | Lit(s: string)
    | Fn(pred: char -> bool, shown: string)
    | Re(matches: char -> bool, shown: string)

  predicate Accepts(t: Test, c: char)
  {
    match t
    case Lit(s) => s == [c]
    case Fn(f, _) => f(c)
    case Re(m, _) => m(c)
  }

  /** How a test is interpolated into an error message. */
  function Show(t: Test): string
  {
    match t
    case Lit(s) => s
    case Fn(_, shown) => shown
    case Re(_, shown) => shown
  }

  /** What a pattern option holds: the list of tests of `tag`, or the one
      test of `take`. */
  datatype Pattern = Tests(tests: seq<Test>) | One(test: Test)

  /** An empty string pattern is the only falsy pattern. */
  predicate PatternTruthy(p: Pattern)
  {
    !(p.One? && p.test == Lit(""))
  }

  /** Identifies a user-supplied value transform (`tokenValue` or
      `valueMapper`); what it computes is supplied from outside. */
  type MapperId = nat

  /** Parser options. `min`/`max` are only read by `take` and `repeat`;
      `None` means the option is absent (`max` absent is Infinity). */
  datatype Options = Options(
    token: Option<string>,
    tokenValue: Option<MapperId>,
    valueMapper: Option<MapperId>,
    min: Option<nat>,
    max: Option<nat>)

  const NoOptions := Options(None, None, None, None, None)

  /** `options.token` is truthy: present and not the empty string. */
  predicate TokenSet(o: Options)
  {
    o.token.Some? && o.token.value != ""
  }

  /** The data of a record: matched characters, a list of child results, a
      single child result, or a value produced by a user transform. */
  datatype Value =
    | Str(s: string)
    | Results(items: seq<Outcome>)
    | Single(item: Outcome)
    | Mapped(id: nat)

  /** Terminal outcomes. `iter` is the continuation: a stream of the arena
      (see module Stream). Absent optional fields are `None`. */
  datatype Outcome =
    | Successful(kind: ParserType, data: Value, iter: nat)
    | Aborted(
        kind: ParserType,
        message: string,
        pattern: Option<Pattern>,
        options: Option<Options>,
        prevParser: Option<Outcome>,
        prevValue: Option<Value>,
        stack: Option<seq<Outcome>>)

  /** Intermediate signals: a token (`type` may be absent) and the input
      request. */
  datatype Signal =
    | Token(tokenType: Option<string>, data: Value)
    | Request(message: string)

  function OutcomeState(o: Outcome): (s: ParserState)
    ensures s == SUCCESSFUL <==> o.Successful?
    ensures s == ABORTED <==> o.Aborted?
  {
    if o.Successful? then SUCCESSFUL else ABORTED
  }

  function SignalState(s: Signal): (st: ParserState)
    ensures st == YIELD <==> s.Token?
    ensures st == EXPECT_NEW_INPUT <==> s.Request?
  {
    if s.Token? then YIELD else EXPECT_NEW_INPUT
  }

  /** Applies an optional transform and falls back to the raw value when
      the transform is absent or returns null/undefined (`f?.(v) ?? v`). */
  function MapOr(apply: (MapperId, Value) -> Option<Value>, m: Option<MapperId>, v: Value): (r: Value)
    ensures m.None? ==> r == v
    ensures m.Some? && apply(m.value, v).Some? ==> r == apply(m.value, v).value
    ensures m.Some? && apply(m.value, v).None? ==> r == v
  {
    if m.None? then v
    else match apply(m.value, v)
      case None => v
      case Some(w) => w
  }

  /** The input request (`createExpectResult`, `DataQuery`). */
  function DataQuery(): (s: Signal)
    ensures SignalState(s) == EXPECT_NEW_INPUT
    ensures s.message == EXPECT_NEW_INPUT_MESSAGE
  {
    Request(EXPECT_NEW_INPUT_MESSAGE)
  }

  /** `createSuccesfullResult` and the `SuccessfulResult` class. */
  function SuccessfulResult(kind: ParserType, data: Value, iter: nat): (o: Outcome)
    ensures OutcomeState(o) == SUCCESSFUL
    ensures o.kind == kind && o.data == data && o.iter == iter
  {
    Successful(kind, data, iter)
  }

  /** JavaScript truthiness of a prevValue: only the empty string is falsy
      among the values parsers put there. */
  predicate ValueTruthy(v: Value)
  {
    v != Str("")
  }

  /** `createAbortedResult`: each optional field is kept only when truthy. */
  function CreateAbortedResult(
    kind: ParserType, message: string, options: Option<Options>, prevParser: Option<Outcome>,
    prevValue: Option<Value>, pattern: Option<Pattern>, stack: Option<seq<Outcome>>): (o: Outcome)
    ensures OutcomeState(o) == ABORTED && o.kind == kind && o.message == message
    ensures o.pattern.Some? <==> pattern.Some? && PatternTruthy(pattern.value)
    ensures o.prevValue.Some? <==> prevValue.Some? && ValueTruthy(prevValue.value)
    ensures o.options == options && o.prevParser == prevParser && o.stack == stack
    ensures o.pattern.Some? ==> o.pattern == pattern
    ensures o.prevValue.Some? ==> o.prevValue == prevValue
  {
    Aborted(kind, message,
      if pattern.Some? && PatternTruthy(pattern.value) then pattern else None,
      options, prevParser,
      if prevValue.Some? && ValueTruthy(prevValue.value) then prevValue else None,
      stack)
  }

  /** The `AbortedResult` class: optional fields are kept when supplied,
      except that an empty-string prevValue is dropped. */
  function NewAbortedResult(
    kind: ParserType, message: string, options: Option<Options>, prevParser: Option<Outcome>,
    prevValue: Option<Value>, pattern: Option<Pattern>, stack: Option<seq<Outcome>>): (o: Outcome)
    ensures OutcomeState(o) == ABORTED && o.kind == kind && o.message == message
    ensures o.pattern == pattern && o.options == options && o.prevParser == prevParser && o.stack == stack
    ensures o.prevValue.Some? <==> prevValue.Some? && prevValue.value != Str("")
    ensures o.prevValue.Some? ==> o.prevValue == prevValue
  {
    Aborted(kind, message, pattern, options, prevParser,
      if prevValue.Some? && prevValue.value != Str("") then prevValue else None,
      stack)
  }

  /** The two aborted-result builders disagree only on a falsy pattern. */
  lemma AbortedBuildersAgree(
    kind: ParserType, message: string, options: Option<Options>, prevParser: Option<Outcome>,
    prevValue: Option<Value>, pattern: Option<Pattern>, stack: Option<seq<Outcome>>)
    ensures (pattern.None? || PatternTruthy(pattern.value)) <==>
      CreateAbortedResult(kind, message, options, prevParser, prevValue, pattern, stack)
      == NewAbortedResult(kind, message, options, prevParser, prevValue, pattern, stack)
  {
    var a := CreateAbortedResult(kind, message, options, prevParser, prevValue, pattern, stack);
    var b := NewAbortedResult(kind, message, options, prevParser, prevValue, pattern, stack);
    if pattern.Some? && !PatternTruthy(pattern.value) {
      assert a.pattern.None? && b.pattern.Some?;
    }
  }

  /** `createParserToken`: no token unless `options.token` is truthy;
      otherwise a token named by it whose data is `tokenValue(parsed)`,
      falling back to `parsed`. */
  function CreateParserToken(apply: (MapperId, Value) -> Option<Value>, options: Options, parsed: Value): (t: Option<Signal>)
    ensures t.Some? <==> TokenSet(options)
    ensures t.Some? ==> SignalState(t.value) == YIELD && t.value.tokenType == options.token
                        && t.value.data == MapOr(apply, options.tokenValue, parsed)
  {
    if !TokenSet(options) then None
    else Some(Token(options.token, MapOr(apply, options.tokenValue, parsed)))
  }

  /** The `OptionalToken` class: named by `options.token` (possibly absent)
      with data `valueMapper(data)`, falling back to `data`. */
  function OptionalToken(apply: (MapperId, Value) -> Option<Value>, data: Value, options: Options): (t: Signal)
    ensures SignalState(t) == YIELD && t.tokenType == options.token
    ensures t.data == MapOr(apply, options.valueMapper, data)
  {
    Token(options.token, MapOr(apply, options.valueMapper, data))
  }

  /** The outcome of one character test: `testChar` returns true or throws
      a `ParserError` carrying this message. */
  datatype Verdict = Pass | Fail(message: string)

  function ComparatorMessage(t: Test, c: char): string
  {
    "Parser's comparator expected \"" + Show(t) + "\", but received \"" + [c] + "\""
  }

  /** `testChar`: passes exactly when the test accepts the character. */
  function TestChar(t: Test, c: char): (v: Verdict)
    ensures v.Pass? <==> Accepts(t, c)
    ensures v.Fail? ==> v.message == ComparatorMessage(t, c)
  {
    match t
    case Lit(s) => if s != [c] then Fail(ComparatorMessage(t, c)) else Pass
    case Fn(f, _) => if !f(c) then Fail(ComparatorMessage(t, c)) else Pass
    case Re(m, _) => if !m(c) then Fail(ComparatorMessage(t, c)) else Pass
  }

  /** The received character and the expected text can be read back from a
      comparator message. */
  lemma ComparatorMessageDecodes(t: Test, c: char)
    ensures var m := ComparatorMessage(t, c);
      var pre := "Parser's comparator expected \"";
      |m| == |pre| + |Show(t)| + 19 && m[|m| - 2] == c
      && m[|pre|..|pre| + |Show(t)|] == Show(t)
  {
    var pre := "Parser's comparator expected \"";
    var mid := "\", but received \"";
    var m := ComparatorMessage(t, c);
    assert m == pre + Show(t) + mid + [c] + "\"";
    assert |mid| == 17;
    assert m[|pre|..|pre| + |Show(t)|] == (pre + Show(t))[|pre|..];
  }

  const SEQ_ERROR_PREFIX: string := "Execution of the \""
  const SEQ_ERROR_INFIX: string := "\" parser failed: "

  /** `createSeqErrorMessage`. */
  function SeqErrorMessage(kind: string, message: string): string
  {
    SEQ_ERROR_PREFIX + kind + SEQ_ERROR_INFIX + message
  }

  /** The first position of `x` in `s`, or |s|. */
  function IndexOf(s: string, x: char): (i: nat)
    ensures i <= |s|
    ensures i < |s| ==> s[i] == x
    ensures forall k :: 0 <= k < i ==> s[k] != x
  {
    if s == [] then 0 else if s[0] == x then 0 else 1 + IndexOf(s[1..], x)
  }

  /** Reads the failed child's type and message back out of a sequence
      error message. */
  function SplitSeqError(m: string): Option<(string, string)>
  {
    var p := |SEQ_ERROR_PREFIX|;
    if |m| < p || m[..p] != SEQ_ERROR_PREFIX then None
    else
      var rest := m[p..];
      var q := IndexOf(rest, '"');
      if |rest| - q >= |SEQ_ERROR_INFIX| && rest[q..q + |SEQ_ERROR_INFIX|] == SEQ_ERROR_INFIX
      then Some((rest[..q], rest[q + |SEQ_ERROR_INFIX|..]))
      else None
  }

  /** A sequence error message names the failed child's type and message
      unambiguously, for every type name without a double quote (all of
      `TypeName`'s). */
  lemma {:induction false} SeqErrorMessageRoundTrip(kind: string, message: string)
    requires '"' !in kind
    ensures SplitSeqError(SeqErrorMessage(kind, message)) == Some((kind, message))
  {
    var m := SeqErrorMessage(kind, message);
    var p := |SEQ_ERROR_PREFIX|;
    assert m[..p] == SEQ_ERROR_PREFIX;
    var rest := m[p..];
    assert rest == kind + SEQ_ERROR_INFIX + message;
    assert rest == kind + (SEQ_ERROR_INFIX + message);
    assert (SEQ_ERROR_INFIX + message)[0] == '"';
    IndexOfPrefix(kind, SEQ_ERROR_INFIX + message, '"');
    var q := IndexOf(rest, '"');
    assert q == |kind|;
    assert rest[..q] == kind;
    assert rest[q..] == SEQ_ERROR_INFIX + message;
    assert rest[q..q + |SEQ_ERROR_INFIX|] == SEQ_ERROR_INFIX;
    assert rest[q + |SEQ_ERROR_INFIX|..] == message;
  }

  lemma {:induction false} IndexOfPrefix(a: string, b: string, x: char)
    requires x !in a && |b| > 0 && b[0] == x
    ensures IndexOf(a + b, x) == |a|
  {
    if a != [] {
      assert (a + b)[1..] == a[1..] + b;
      IndexOfPrefix(a[1..], b, x);
    }
  }
}
