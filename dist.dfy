/**
 * Message extraction for the translation catalogs: the token state machine
 * of `extract_python` (over tokens whose string literals are already
 * decoded), the plural expression of a catalog header, and the grouping of a
 * compiled catalog into the messages of the JavaScript catalog.
 */
module Dist {
  import opened Wrappers
  import opened Strings

  // ---------------------------------------------------------------------------
  // Tokens and options

  datatype TokenKind = NameToken | OpToken | StringToken | CommentToken | OtherToken

  /** A token: its kind, its text (the decoded value for a string literal) and its line. */
  datatype Token = Token(kind: TokenKind, value: string, line: int)

  /** The messages of one call: one message, or one per argument. */
  datatype Messages = Single(message: Option<string>) | Several(messages: seq<Option<string>>)

  /** What the extractor yields for one keyword call. */
  datatype Extracted = Extracted(line: int, funcname: string, messages: Messages, comments: seq<string>)

  /**
   * The extraction options: the keywords, the translator comment tags, the
   * keyword-argument index maps and the keywords whose messages are cleaned
   * up with `cleandoc`.
   */
  datatype Options = Options(
    keywords: set<string>,
    commentTags: seq<string>,
    kwargsMaps: map<string, map<string, nat>>,
    cleandocKeywords: set<string>)

  /** `_DEFAULT_KWARGS_MAPS`: where the `doc` argument of each option class goes. */
  const DefaultKwargsMaps: map<string, map<string, nat>> := map[
    "Option" := map["doc" := 4],
    "BoolOption" := map["doc" := 4],
    "IntOption" := map["doc" := 4],
    "FloatOption" := map["doc" := 4],
    "ListOption" := map["doc" := 6],
    "ChoiceOption" := map["doc" := 4],
    "PathOption" := map["doc" := 4],
    "ExtensionOption" := map["doc" := 5],
    "OrderedExtensionsOption" := map["doc" := 6]]

  /** `_DEFAULT_CLEANDOC_KEYWORDS`. */
  const DefaultCleandocKeywords: set<string> := {
    "ConfigSection", "Option", "BoolOption", "IntOption", "FloatOption",
    "ListOption", "ChoiceOption", "PathOption", "ExtensionOption",
    "OrderedExtensionsOption", "cleandoc_"}

  /** The options in force: the defaults, updated by the `kwargs_maps` and `cleandoc_keywords` options. */
  function EffectiveOptions(keywords: set<string>, commentTags: seq<string>,
                            kwargsMaps: Option<map<string, map<string, nat>>>, cleandocKeywords: Option<set<string>>)
    : (o: Options)
    ensures o.keywords == keywords && o.commentTags == commentTags
    ensures forall k :: k in o.kwargsMaps <==> k in DefaultKwargsMaps || (kwargsMaps.Some? && k in kwargsMaps.value)
    ensures forall k :: kwargsMaps.Some? && k in kwargsMaps.value ==> o.kwargsMaps[k] == kwargsMaps.value[k]
    ensures forall k :: k in DefaultKwargsMaps && (kwargsMaps.None? || k !in kwargsMaps.value) ==>
      o.kwargsMaps[k] == DefaultKwargsMaps[k]
    ensures DefaultCleandocKeywords <= o.cleandocKeywords
    ensures cleandocKeywords.Some? ==> o.cleandocKeywords == DefaultCleandocKeywords + cleandocKeywords.value
  {
    Options(keywords, commentTags,
      if kwargsMaps.Some? then DefaultKwargsMaps + kwargsMaps.value else DefaultKwargsMaps,
      if cleandocKeywords.Some? then DefaultCleandocKeywords + cleandocKeywords.value else DefaultCleandocKeywords)
  }

  // ---------------------------------------------------------------------------
  // The state of the extractor

  /** The local variables of `extract_python` that carry over from one token to the next. */
  datatype State = State(
    funcname: Option<string>,
    funcKwargsMap: map<string, nat>,
    messageLine: Option<int>,
    callStack: int,
    buf: seq<string>,
    messages: seq<Option<string>>,
    messagesKwargs: seq<(string, string)>,
    comments: seq<(int, string)>,
    inDef: bool,
    inComments: bool,
    kwargName: Option<string>)

  /** The state before the first token and after each completed call. */
  const Initial: State := State(None, map[], None, -1, [], [], [], [], false, false, None)

  /**
   * What every reachable state satisfies: the call depth is at least -1;
   * translator comments exist while collecting them; inside a call there
   * is no pending `def`, the call's line is known and the buffer is only
   * used at the top level of the call.
   */
  ghost predicate Valid(st: State) {
    && st.callStack >= -1
    && (st.inComments ==> st.comments != [])
    && (st.callStack >= 0 ==> !st.inDef && st.messageLine.Some?)
    && (st.callStack == -1 ==> st.buf == [] && st.messages == [] && st.messagesKwargs == [])
  }

  function Last<T>(s: seq<T>): T
    requires s != []
  {
    s[|s| - 1]
  }

  /** `messages_kwargs[name] = msg`: a new name goes last, a known one keeps its place. */
  function SetKwarg(kws: seq<(string, string)>, name: string, msg: string): (r: seq<(string, string)>)
    ensures (name, msg) in r
    ensures forall e :: e in kws && e.0 != name ==> e in r
    ensures forall e :: e in r ==> e == (name, msg) || e in kws
  {
    if kws == [] then [(name, msg)]
    else if kws[0].0 == name then [(name, msg)] + kws[1..]
    else [kws[0]] + SetKwarg(kws[1..], name, msg)
  }

  /**
   * The end of an argument (a ',' or the closing ')'): the buffered string
   * literals joined into one message, put under the argument's name when
   * the keyword maps it and appended otherwise; None when the argument held
   * no string literal.
   */
  function FlushArg(st: State): (r: State)
    ensures r.buf == []
    ensures st.buf == [] ==> r.messages == st.messages + [None] && r.messagesKwargs == st.messagesKwargs
    ensures st.buf != [] && st.kwargName.Some? && st.kwargName.value in st.funcKwargsMap ==>
      r.messages == st.messages && (st.kwargName.value, Concat(st.buf)) in r.messagesKwargs
    ensures st.buf != [] && !(st.kwargName.Some? && st.kwargName.value in st.funcKwargsMap) ==>
      r.messages == st.messages + [Some(Concat(st.buf))] && r.messagesKwargs == st.messagesKwargs
    ensures r == st.(buf := r.buf, messages := r.messages, messagesKwargs := r.messagesKwargs)
  {
    if st.buf != [] then
      var message := Concat(st.buf);
      if st.kwargName.Some? && st.kwargName.value in st.funcKwargsMap then
        st.(messagesKwargs := SetKwarg(st.messagesKwargs, st.kwargName.value, message), buf := [])
      else st.(messages := st.messages + [Some(message)], buf := [])
    else st.(messages := st.messages + [None])
  }

  /** `messages[i] = m` with Python's negative indices; `i` is at least -|ms|. */
  function PySet(ms: seq<Option<string>>, i: int, m: Option<string>): seq<Option<string>>
    requires -|ms| <= i < |ms|
  {
    if i < 0 then ms[i + |ms| := m] else ms[i := m]
  }

  /** `None`s appended until `ms` is longer than `index`. */
  function Pad(ms: seq<Option<string>>, index: nat): (r: seq<Option<string>>)
    ensures |r| == if index >= |ms| then index + 1 else |ms|
    ensures r[..|ms|] == ms && forall j :: |ms| <= j < |r| ==> r[j] == None
    decreases index + 1 - |ms|
  {
    if index >= |ms| then Pad(ms + [None], index) else ms
  }

  /** One mapped keyword argument placed: the list padded past its index and the message put at index-1. */
  function PlaceOne(ms: seq<Option<string>>, index: nat, msg: string): (r: seq<Option<string>>)
    ensures |r| == if index >= |ms| then index + 1 else |ms|
    ensures index >= 1 ==> r[index - 1] == Some(msg) && forall j :: 0 <= j < |r| && j != index - 1 ==> r[j] == Pad(ms, index)[j]
    ensures index == 0 ==> r[|r| - 1] == Some(msg) && forall j :: 0 <= j < |r| - 1 ==> r[j] == Pad(ms, index)[j]
  {
    var padded := Pad(ms, index);
    PySet(padded, index - 1, Some(msg))
  }

  /** The keyword-argument messages put at their mapped places, in the order they were first given. */
  function Place(ms: seq<Option<string>>, kws: seq<(string, string)>, m: map<string, nat>): (r: seq<Option<string>>)
    ensures |r| >= |ms|
    ensures (exists e :: e in kws && e.0 in m) ==> |r| >= 1
    decreases |kws|
  {
    if kws == [] then ms
    else
      var (name, msg) := kws[0];
      var next := if name in m then PlaceOne(ms, m[name], msg) else ms;
      Place(next, kws[1..], m)
  }

  /** `[m and cleandoc(m) for m in messages]`. */
  function Clean(ms: seq<Option<string>>, cleandoc: string -> string): (r: seq<Option<string>>)
    ensures |r| == |ms|
    ensures forall i :: 0 <= i < |ms| ==> r[i] == if HasText(ms[i]) then Some(cleandoc(ms[i].value)) else ms[i]
  {
    if ms == [] then [] else [if HasText(ms[0]) then Some(cleandoc(ms[0].value)) else ms[0]] + Clean(ms[1..], cleandoc)
  }

  /** One message on its own, several as a tuple. */
  function Pack(ms: seq<Option<string>>): (r: Messages)
    requires ms != []
    ensures |ms| == 1 ==> r == Single(ms[0])
    ensures |ms| > 1 ==> r == Several(ms)
  {
    if |ms| > 1 then Several(ms) else Single(ms[0])
  }

  /** Translator comments apply only when the last one is on the call's line or the line before. */
  function KeepComments(comments: seq<(int, string)>, line: int): (r: seq<(int, string)>)
    ensures r == [] || r == comments
    ensures r != [] ==> Last(r).0 >= line - 1
    ensures comments != [] && Last(comments).0 >= line - 1 ==> r == comments
  {
    if comments != [] && Last(comments).0 < line - 1 then [] else comments
  }

  function CommentTexts(comments: seq<(int, string)>): (r: seq<string>)
    ensures |r| == |comments| && forall i :: 0 <= i < |comments| ==> r[i] == comments[i].1
  {
    if comments == [] then [] else [comments[0].1] + CommentTexts(comments[1..])
  }

  /** The closing ')' of a keyword call: the last argument flushed and the call's messages and comments yielded. */
  function FinishCall(opts: Options, cleandoc: string -> string, st: State): (r: (State, Extracted))
    requires HasText(st.funcname)
  {
    var s1 := FlushArg(st);
    PlaceNonEmpty(st, s1);
    var ms := Place(s1.messages, s1.messagesKwargs, s1.funcKwargsMap);
    var cleaned := if st.funcname.value in opts.cleandocKeywords then Clean(ms, cleandoc) else ms;
    var line := st.messageLine.GetOr(0);
    var comments := KeepComments(s1.comments, line);
    (Initial.(inDef := st.inDef), Extracted(line, st.funcname.value, Pack(cleaned), CommentTexts(comments)))
  }

  /** At the closing ')' the call always has at least one message. */
  lemma PlaceNonEmpty(st: State, s1: State)
    requires s1 == FlushArg(st)
    ensures Place(s1.messages, s1.messagesKwargs, s1.funcKwargsMap) != []
  {
    if s1.messages == [] {
      assert (st.kwargName.value, Concat(st.buf)) in s1.messagesKwargs;
    }
  }

  /** `value.decode(encoding)[1:].strip()`: the comment without its '#'. */
  function CommentText(value: string): string {
    Strip(if value == [] then [] else value[1..])
  }

  predicate AnyTag(text: string, tags: seq<string>) {
    exists i :: 0 <= i < |tags| && StartsWith(text, tags[i])
  }

  /** A comment outside calls: it continues the translator comments of the line before, starts them with a tag, or is ignored. */
  function OnComment(opts: Options, st: State, line: int, text: string): (r: State)
  {
    if st.inComments && st.comments != [] && Last(st.comments).0 == line - 1 then
      st.(comments := st.comments + [(line, text)])
    else if AnyTag(text, opts.commentTags) then
      st.(inComments := true, comments := st.comments + [(line, text)])
    else st
  }

  /** A ',' at the top level of a call: the argument is flushed, and the last translator comment moves a line down. */
  function OnComma(st: State): (r: State)
  {
    var s1 := FlushArg(st).(kwargName := None);
    if s1.comments != [] then
      var (line, text) := Last(s1.comments);
      s1.(comments := s1.comments[..|s1.comments| - 1] + [(line + 1, text)])
    else s1
  }

  predicate IsOp(tok: Token, v: string) {
    tok.kind == OpToken && tok.value == v
  }

  /** A token at the top level of a keyword call's arguments. */
  function InCall(opts: Options, cleandoc: string -> string, st: State, prev: Option<Token>, tok: Token)
    : (r: (State, Option<Extracted>))
    requires HasText(st.funcname)
  {
    if IsOp(tok, ")") then
      var (st', e) := FinishCall(opts, cleandoc, st);
      (st', Some(e))
    else if tok.kind == StringToken then
      (st.(buf := st.buf + [tok.value]), None)
    else if IsOp(tok, "=") && prev.Some? && prev.value.kind == NameToken then
      (st.(kwargName := Some(prev.value.value)), None)
    else if IsOp(tok, ",") then
      (OnComma(st), None)
    else (st, None)
  }

  /** One token through the `if`/`elif` chain of `extract_python`; a completed call yields its messages. */
  function Step(opts: Options, cleandoc: string -> string, st: State, prev: Option<Token>, tok: Token)
    : (r: (State, Option<Extracted>))
  {
    if st.callStack == -1 && tok.kind == NameToken && tok.value in ["def", "class"] then
      (st.(inDef := true), None)
    else if IsOp(tok, "(") then
      if st.inDef then (st.(inDef := false), None)
      else if HasText(st.funcname) then
        (st.(messageLine := Some(tok.line), callStack := st.callStack + 1, kwargName := None), None)
      else (st.(kwargName := None), None)
    else if st.inDef && IsOp(tok, ":") then
      (st.(inDef := false), None)
    else if st.callStack == -1 && tok.kind == CommentToken then
      (OnComment(opts, st, tok.line, CommentText(tok.value)), None)
    else if HasText(st.funcname) && st.callStack == 0 then
      InCall(opts, cleandoc, st, prev, tok)
    else if st.callStack > 0 && IsOp(tok, ")") then
      (st.(callStack := st.callStack - 1), None)
    else if HasText(st.funcname) && st.callStack == -1 then
      (st.(funcname := None, funcKwargsMap := map[], kwargName := None), None)
    else if tok.kind == NameToken && tok.value in opts.keywords then
      (st.(funcname := Some(tok.value),
           funcKwargsMap := if tok.value in opts.kwargsMaps then opts.kwargsMaps[tok.value] else map[],
           kwargName := None), None)
    else (st, None)
  }

  /** The state after the tokens and what they yielded, in order. */
  function Run(opts: Options, cleandoc: string -> string, tokens: seq<Token>): (r: (State, seq<Extracted>))
  {
    if tokens == [] then (Initial, [])
    else
      var n := |tokens| - 1;
      var (st, out) := Run(opts, cleandoc, tokens[..n]);
      var prev := if n > 0 then Some(tokens[n - 1]) else None;
      var (st', e) := Step(opts, cleandoc, st, prev, tokens[n]);
      (st', out + (if e.Some? then [e.value] else []))
  }

  // ---------------------------------------------------------------------------
  // Properties of the state machine

  /** Every token keeps the extractor in a valid state. */
  lemma StepValid(opts: Options, cleandoc: string -> string, st: State, prev: Option<Token>, tok: Token)
    requires Valid(st)
    ensures Valid(Step(opts, cleandoc, st, prev, tok).0)
  {
    var r := Step(opts, cleandoc, st, prev, tok).0;
    if st.callStack == -1 && tok.kind == NameToken && tok.value in ["def", "class"] {
    } else if IsOp(tok, "(") {
    } else if st.inDef && IsOp(tok, ":") {
    } else if st.callStack == -1 && tok.kind == CommentToken {
      OnCommentValid(opts, st, tok.line, CommentText(tok.value));
    } else if HasText(st.funcname) && st.callStack == 0 {
      if IsOp(tok, ")") {
        assert r == Initial;
      } else if tok.kind == StringToken {
      } else if IsOp(tok, "=") && prev.Some? && prev.value.kind == NameToken {
      } else if IsOp(tok, ",") {
        assert r == OnComma(st);
        assert FlushArg(st).comments == st.comments;
      }
    }
  }

  lemma OnCommentValid(opts: Options, st: State, line: int, text: string)
    requires Valid(st) && st.callStack == -1
    ensures Valid(OnComment(opts, st, line, text))
  {
  }

  /** Every state the extractor reaches is valid. */
  lemma {:induction false} RunValid(opts: Options, cleandoc: string -> string, tokens: seq<Token>)
    ensures Valid(Run(opts, cleandoc, tokens).0)
    decreases |tokens|
  {
    if tokens != [] {
      var n := |tokens| - 1;
      RunValid(opts, cleandoc, tokens[..n]);
      StepValid(opts, cleandoc, Run(opts, cleandoc, tokens[..n]).0, if n > 0 then Some(tokens[n - 1]) else None, tokens[n]);
    }
  }

  /** The closing ')' of a keyword call yields it and puts the extractor back in its initial state. */
  lemma FinishResets(opts: Options, cleandoc: string -> string, st: State, prev: Option<Token>, tok: Token)
    requires Valid(st) && HasText(st.funcname) && st.callStack == 0 && IsOp(tok, ")")
    ensures Step(opts, cleandoc, st, prev, tok).0 == Initial
    ensures Step(opts, cleandoc, st, prev, tok).1.Some?
    ensures Step(opts, cleandoc, st, prev, tok).1.value.funcname == st.funcname.value
    ensures Step(opts, cleandoc, st, prev, tok).1.value.line == st.messageLine.value
  {
  }

  /**
   * Inside a keyword call, a nested '(' only deepens the call (and records its
   * line) and the matching ')' only makes it shallower again; neither yields.
   */
  lemma NestedParens(opts: Options, cleandoc: string -> string, st: State, prev: Option<Token>, open: Token, close: Token)
    requires Valid(st) && HasText(st.funcname) && st.callStack >= 0
    requires IsOp(open, "(") && IsOp(close, ")")
    ensures Step(opts, cleandoc, st, prev, open) == (st.(callStack := st.callStack + 1, messageLine := Some(open.line), kwargName := None), None)
    ensures var st' := Step(opts, cleandoc, st, prev, open).0;
      Step(opts, cleandoc, st', Some(open), close) == (st.(messageLine := Some(open.line), kwargName := None), None)
  {
  }

  /** After `def` or `class`, the next '(' starts no call and yields nothing. */
  lemma DefParenIgnored(opts: Options, cleandoc: string -> string, st: State, prev: Option<Token>, tok: Token)
    requires st.inDef && IsOp(tok, "(")
    ensures Step(opts, cleandoc, st, prev, tok) == (st.(inDef := false), None)
  {
  }

  /** A keyword that is not followed by '(' is forgotten. */
  lemma KeywordForgotten(opts: Options, cleandoc: string -> string, st: State, prev: Option<Token>, tok: Token)
    requires HasText(st.funcname) && st.callStack == -1 && !st.inDef
    requires !IsOp(tok, "(") && tok.kind != CommentToken && !(tok.kind == NameToken && tok.value in ["def", "class"])
    ensures Step(opts, cleandoc, st, prev, tok) == (st.(funcname := None, funcKwargsMap := map[], kwargName := None), None)
  {
  }

  /** At the top level of a call, a string literal is added to the current argument's buffer. */
  lemma LiteralBuffered(opts: Options, cleandoc: string -> string, st: State, prev: Option<Token>, tok: Token)
    requires Valid(st) && HasText(st.funcname) && st.callStack == 0 && tok.kind == StringToken
    ensures Step(opts, cleandoc, st, prev, tok) == (st.(buf := st.buf + [tok.value]), None)
  {
  }

  /**
   * At the top level of a call, a ',' ends an unnamed argument: its literals
   * joined become the next message, or None when it had none.
   */
  lemma CommaEndsArgument(opts: Options, cleandoc: string -> string, st: State, prev: Option<Token>, tok: Token)
    requires Valid(st) && HasText(st.funcname) && st.callStack == 0 && IsOp(tok, ",") && st.kwargName.None?
    ensures Step(opts, cleandoc, st, prev, tok).1.None?
    ensures var st' := Step(opts, cleandoc, st, prev, tok).0;
      && st' == st.(buf := [], messages := st'.messages, comments := st'.comments)
      && st'.messages == st.messages + [if st.buf == [] then None else Some(Concat(st.buf))]
      && (st.comments == [] ==> st'.comments == [])
  {
  }

  /**
   * The closing ')' of a call without keyword arguments yields the messages
   * of its arguments, the last one joined from its literals (or None): one
   * message on its own, several as a tuple.
   */
  lemma CloseYieldsMessages(opts: Options, cleandoc: string -> string, st: State, prev: Option<Token>, tok: Token)
    requires Valid(st) && HasText(st.funcname) && st.callStack == 0 && IsOp(tok, ")")
    requires st.messagesKwargs == [] && st.kwargName.None? && st.funcname.value !in opts.cleandocKeywords
    ensures Step(opts, cleandoc, st, prev, tok).0 == Initial
    ensures var e := Step(opts, cleandoc, st, prev, tok).1;
      var ms := st.messages + [if st.buf == [] then None else Some(Concat(st.buf))];
      && e.Some? && e.value.funcname == st.funcname.value && e.value.line == st.messageLine.value
      && e.value.messages == (if |ms| == 1 then Single(ms[0]) else Several(ms))
      && (st.comments == [] ==> e.value.comments == [])
  {
    var s1 := FlushArg(st);
    assert Place(s1.messages, [], s1.funcKwargsMap) == s1.messages;
  }

  // ---------------------------------------------------------------------------
  // The extractor as written

  /**
   * `extract_python` over a token list: the loop with its local variables,
   * yielding what `Run` yields.
   */
  method ExtractPython(opts: Options, cleandoc: string -> string, tokens: seq<Token>) returns (out: seq<Extracted>)
    ensures out == Run(opts, cleandoc, tokens).1
  {
    var st := Initial;
    var prev: Option<Token> := None;
    out := [];
    for i := 0 to |tokens|
      invariant st == Run(opts, cleandoc, tokens[..i]).0 && out == Run(opts, cleandoc, tokens[..i]).1
      invariant prev == if i > 0 then Some(tokens[i - 1]) else None
    {
      assert tokens[..i + 1][..i] == tokens[..i];
      assert tokens[..i + 1][i] == tokens[i];
      assert i > 0 ==> tokens[..i + 1][i - 1] == tokens[i - 1];
      ghost var step := Step(opts, cleandoc, st, prev, tokens[i]);
      assert Run(opts, cleandoc, tokens[..i + 1]).0 == step.0;
      assert Run(opts, cleandoc, tokens[..i + 1]).1 == out + if step.1.Some? then [step.1.value] else [];
      var e;
      st, e := Feed(opts, cleandoc, st, prev, tokens[i]);
      assert (st, e) == step;
      if e.Some? {
        out := out + [e.value];
      }
      assert st == Run(opts, cleandoc, tokens[..i + 1]).0;
      assert out == Run(opts, cleandoc, tokens[..i + 1]).1;
      prev := Some(tokens[i]);
    }
    assert tokens[..|tokens|] == tokens;
  }

  /**
   * The body of the token loop of `extract_python`: one token through its
   * `if`/`elif` chain, updating the generator's local variables in turn.
   * `Step` (with `OnComment` and `InCall`) is the specification that the
   * lemmas about one token and about `Run` are stated over; `Feed` and its
   * helpers are the statement-by-statement loop body, and each of them is
   * proved equal to its function.
   */
  method Feed(opts: Options, cleandoc: string -> string, st: State, prev: Option<Token>, tok: Token)
    returns (next: State, e: Option<Extracted>)
    ensures (next, e) == Step(opts, cleandoc, st, prev, tok)
  {
    var State(funcname, funcKwargsMap, messageLine, callStack, buf, messages, messagesKwargs,
              comments, inDef, inComments, kwargName) := st;
    if callStack == -1 && tok.kind == NameToken && tok.value in ["def", "class"] {
      inDef := true;
      return State(funcname, funcKwargsMap, messageLine, callStack, buf, messages, messagesKwargs, comments, inDef, inComments, kwargName), None;
    } else if tok.kind == OpToken && tok.value == "(" {
      next := FeedParen(opts, cleandoc, st, prev, tok);
      return next, None;
    } else if inDef && tok.kind == OpToken && tok.value == ":" {
      inDef := false;
      return State(funcname, funcKwargsMap, messageLine, callStack, buf, messages, messagesKwargs, comments, inDef, inComments, kwargName), None;
    } else if callStack == -1 && tok.kind == CommentToken {
      next := FeedComment(opts, st, tok.line, CommentText(tok.value));
      return next, None;
    }
    next, e := FeedCall(opts, cleandoc, st, prev, tok);
  }

  /** An opening '(': it ends a `def` or `class` header, or opens (or deepens) the call of a pending keyword. */
  method FeedParen(opts: Options, cleandoc: string -> string, st: State, prev: Option<Token>, tok: Token) returns (next: State)
    requires !(st.callStack == -1 && tok.kind == NameToken && tok.value in ["def", "class"]) && IsOp(tok, "(")
    ensures (next, None) == Step(opts, cleandoc, st, prev, tok)
  {
    var State(funcname, funcKwargsMap, messageLine, callStack, buf, messages, messagesKwargs,
              comments, inDef, inComments, kwargName) := st;
    if inDef {
      inDef := false;
      return State(funcname, funcKwargsMap, messageLine, callStack, buf, messages, messagesKwargs, comments, inDef, inComments, kwargName);
    }
    if HasText(funcname) {
      messageLine := Some(tok.line);
      callStack := callStack + 1;
    }
    kwargName := None;
    return State(funcname, funcKwargsMap, messageLine, callStack, buf, messages, messagesKwargs, comments, inDef, inComments, kwargName);
  }

  /** A comment outside a call: it continues the translator comments of the line above, or starts them with a tag. */
  method FeedComment(opts: Options, st: State, line: int, text: string) returns (next: State)
    ensures next == OnComment(opts, st, line, text)
  {
    var comments, inComments := st.comments, st.inComments;
    if inComments && comments != [] && comments[|comments| - 1].0 == line - 1 {
      comments := comments + [(line, text)];
      return st.(comments := comments);
    }
    if AnyTag(text, opts.commentTags) {
      inComments := true;
      comments := comments + [(line, text)];
    }
    return st.(comments := comments, inComments := inComments);
  }


  /** The rest of the chain: inside a keyword call, and what its name or its parentheses do. */
  method FeedCall(opts: Options, cleandoc: string -> string, st: State, prev: Option<Token>, tok: Token)
    returns (next: State, e: Option<Extracted>)
    requires !(st.callStack == -1 && tok.kind == NameToken && tok.value in ["def", "class"])
    requires !IsOp(tok, "(") && !(st.inDef && IsOp(tok, ":")) && !(st.callStack == -1 && tok.kind == CommentToken)
    ensures (next, e) == Step(opts, cleandoc, st, prev, tok)
  {
    var State(funcname, funcKwargsMap, messageLine, callStack, buf, messages, messagesKwargs,
              comments, inDef, inComments, kwargName) := st;
    if HasText(funcname) && callStack == 0 {
      next, e := FeedInCall(opts, cleandoc, st, prev, tok);
      return;
    } else if callStack > 0 && tok.kind == OpToken && tok.value == ")" {
      callStack := callStack - 1;
      return State(funcname, funcKwargsMap, messageLine, callStack, buf, messages, messagesKwargs, comments, inDef, inComments, kwargName), None;
    } else if HasText(funcname) && callStack == -1 {
      funcname, funcKwargsMap, kwargName := None, map[], None;
      return State(funcname, funcKwargsMap, messageLine, callStack, buf, messages, messagesKwargs, comments, inDef, inComments, kwargName), None;
    } else if tok.kind == NameToken && tok.value in opts.keywords {
      funcname := Some(tok.value);
      funcKwargsMap := if tok.value in opts.kwargsMaps then opts.kwargsMaps[tok.value] else map[];
      kwargName := None;
      return State(funcname, funcKwargsMap, messageLine, callStack, buf, messages, messagesKwargs, comments, inDef, inComments, kwargName), None;
    }
    return State(funcname, funcKwargsMap, messageLine, callStack, buf, messages, messagesKwargs, comments, inDef, inComments, kwargName), None;
  }

  /** The arguments of a keyword call, an imperative `InCall`. */
  method FeedInCall(opts: Options, cleandoc: string -> string, st: State, prev: Option<Token>, tok: Token)
    returns (next: State, e: Option<Extracted>)
    requires HasText(st.funcname)
    ensures (next, e) == InCall(opts, cleandoc, st, prev, tok)
  {
    var State(funcname, funcKwargsMap, messageLine, callStack, buf, messages, messagesKwargs,
              comments, inDef, inComments, kwargName) := st;
    if tok.kind == OpToken && tok.value == ")" {
      var s1 := FlushArg(st);
      PlaceNonEmpty(st, s1);
      var placed := PlaceKwargs(s1.messages, s1.messagesKwargs, funcKwargsMap);
      if funcname.value in opts.cleandocKeywords {
        placed := Clean(placed, cleandoc);
      }
      var line := messageLine.GetOr(0);
      var kept := KeepComments(comments, line);
      var extracted := Extracted(line, funcname.value, Pack(placed), CommentTexts(kept));
      funcname, funcKwargsMap, messageLine, callStack := None, map[], None, -1;
      buf, messages, messagesKwargs, comments := [], [], [], [];
      inComments, kwargName := false, None;
      return State(funcname, funcKwargsMap, messageLine, callStack, buf, messages, messagesKwargs, comments, inDef, inComments, kwargName), Some(extracted);
    } else if tok.kind == StringToken {
      buf := buf + [tok.value];
    } else if tok.kind == OpToken && tok.value == "=" && prev.Some? && prev.value.kind == NameToken {
      kwargName := Some(prev.value.value);
    } else if tok.kind == OpToken && tok.value == "," {
      var s1 := FlushArg(st);
      buf, messages, messagesKwargs := s1.buf, s1.messages, s1.messagesKwargs;
      kwargName := None;
      if comments != [] {
        var (oldLine, oldComment) := comments[|comments| - 1];
        comments := comments[..|comments| - 1] + [(oldLine + 1, oldComment)];
      }
    }
    return State(funcname, funcKwargsMap, messageLine, callStack, buf, messages, messagesKwargs, comments, inDef, inComments, kwargName), None;
  }

  /**
   * The placing loop of `extract_python`: for each keyword-argument message
   * whose name the keyword maps, pad the messages with None past the mapped
   * index and put the message at index-1.
   */
  method PlaceKwargs(ms: seq<Option<string>>, kws: seq<(string, string)>, m: map<string, nat>) returns (r: seq<Option<string>>)
    ensures r == Place(ms, kws, m)
  {
    r := ms;
    for i := 0 to |kws|
      invariant Place(r, kws[i..], m) == Place(ms, kws, m)
    {
      var (name, message) := kws[i];
      assert kws[i..][1..] == kws[i + 1..];
      if name !in m {
        continue;
      }
      var index := m[name];
      ghost var before := r;
      while index >= |r|
        invariant Pad(r, index) == Pad(before, index)
        decreases index + 1 - |r|
      {
        r := r + [None];
      }
      r := PySet(r, index - 1, Some(message));
      assert r == PlaceOne(before, index, message);
    }
  }

  // ---------------------------------------------------------------------------
  // The plural expression of a catalog header

  /** `\s` of a pattern compiled without `re.UNICODE`. */
  predicate IsRegexSpace(c: char) {
    c == ' ' || '\t' <= c <= '\r'
  }

  /** `\w` of a pattern compiled without `re.UNICODE`. */
  predicate IsWordChar(c: char) {
    'a' <= c <= 'z' || 'A' <= c <= 'Z' || '0' <= c <= '9' || c == '_'
  }

  /** `\s*` from `i`: the first index that is not white space. */
  function SkipSpace(s: string, i: nat): (k: nat)
    requires i <= |s|
    ensures i <= k <= |s|
    ensures forall j :: i <= j < k ==> IsRegexSpace(s[j])
    ensures k == |s| || !IsRegexSpace(s[k])
    decreases |s| - i
  {
    if i < |s| && IsRegexSpace(s[i]) then SkipSpace(s, i + 1) else i
  }

  /** `[^;]*` from `i`: the first ';' at or after `i`, or the end. */
  function RunEnd(s: string, i: nat): (k: nat)
    requires i <= |s|
    ensures i <= k <= |s|
    ensures forall j :: i <= j < k ==> s[j] != ';'
    ensures k == |s| || s[k] == ';'
    decreases |s| - i
  {
    if i < |s| && s[i] != ';' then RunEnd(s, i + 1) else i
  }

  /** The word `plural` starts at `p`. */
  predicate PluralAt(s: string, p: nat) {
    p + 6 <= |s| && s[p..p + 6] == "plural"
  }

  /**
   * `\bplural\s*=\s*([^;]+)` tried at position `p`: the captured group. The
   * greedy `\s*` after '=' gives back its last space when the group would
   * otherwise be empty.
   */
  function MatchAt(s: string, p: nat): (r: Option<string>)
    requires p <= |s|
    ensures r.Some? ==> r.value != [] && forall j :: 0 <= j < |r.value| ==> r.value[j] != ';'
  {
    if !(PluralAt(s, p) && (p == 0 || !IsWordChar(s[p - 1]))) then None
    else
      var b := SkipSpace(s, p + 6);
      if b == |s| || s[b] != '=' then None
      else
        var c := SkipSpace(s, b + 1);
        if c < |s| && s[c] != ';' then Some(s[c..RunEnd(s, c)])
        else if c > b + 1 then Some(s[c - 1..c])
        else None
  }

  /** `re.search` from position `p` on: the leftmost position where the pattern matches, or `|s| + 1`. */
  function SearchFrom(s: string, p: nat): (q: nat)
    requires p <= |s|
    ensures p <= q <= |s| + 1
    ensures q <= |s| ==> MatchAt(s, q).Some?
    ensures forall q' :: p <= q' < q && q' <= |s| ==> MatchAt(s, q').None?
    decreases |s| - p
  {
    if MatchAt(s, p).Some? then p
    else if p == |s| then p + 1
    else SearchFrom(s, p + 1)
  }

  /** Why the JavaScript catalog could not be written: a header without a plural expression, or a plural form of a plain message. */
  datatype JsError = BadPluralForms(forms: string) | NotAMapping(msgid: string)

  /**
   * `pluralexpr`: the expression after `plural=` up to the next ';', taken
   * from the leftmost place that matches; a ValueError when none does.
   */
  function PluralExpr(forms: string): (r: Result<string, JsError>)
    ensures r.Err? <==> forall q :: 0 <= q <= |forms| ==> MatchAt(forms, q).None?
    ensures r.Err? ==> r.error == BadPluralForms(forms)
    ensures r.Ok? ==> r.value != [] && forall j :: 0 <= j < |r.value| ==> r.value[j] != ';'
    ensures r.Ok? ==> exists q :: 0 <= q <= |forms| && MatchAt(forms, q) == Some(r.value)
  {
    var q := SearchFrom(forms, 0);
    if q <= |forms| then Ok(MatchAt(forms, q).value) else Err(BadPluralForms(forms))
  }

  /** A header value that starts with `plural=` gives the text up to the first ';'. */
  lemma PluralExprAtStart(e: string, rest: string)
    requires e != [] && !IsRegexSpace(e[0]) && forall j :: 0 <= j < |e| ==> e[j] != ';'
    ensures PluralExpr("plural=" + e + ";" + rest) == Ok(e)
  {
    var s := "plural=" + e + ";" + rest;
    assert s[0..6] == "plural";
    assert SkipSpace(s, 6) == 6;
    assert s[6] == '=';
    assert s[7] == e[0];
    assert SkipSpace(s, 7) == 7;
    RunEndAt(s, 7, |e|);
    assert forall j :: 0 <= j < |e| ==> s[7 + j] == e[j];
    assert s[7..7 + |e|] == e;
  }

  /** The run of non-';' characters from `i` is `n` long when `s[i + n]` is the next ';'. */
  lemma {:induction false} RunEndAt(s: string, i: nat, n: nat)
    requires i + n < |s| && s[i + n] == ';' && forall j :: i <= j < i + n ==> s[j] != ';'
    ensures RunEnd(s, i) == i + n
    decreases n
  {
    if n > 0 {
      RunEndAt(s, i + 1, n - 1);
    }
  }

  /** `plural=` followed by a space and ';' captures the space: the backtracking of `\s*`. */
  lemma PluralExprBacktracks(rest: string)
    ensures PluralExpr("plural= ;" + rest) == Ok(" ")
  {
    var s := "plural= ;" + rest;
    assert s[0..6] == "plural";
    assert SkipSpace(s, 6) == 6;
    assert SkipSpace(s, 8) == 8;
    assert SkipSpace(s, 7) == 8;
    assert MatchAt(s, 0) == Some(s[7..8]);
    assert s[7..8] == " ";
    assert SearchFrom(s, 0) == 0;
  }

  /** Without the word `plural` there is no plural expression. */
  lemma PluralExprMissing(forms: string)
    requires forall q :: 0 <= q <= |forms| ==> !PluralAt(forms, q)
    ensures PluralExpr(forms) == Err(BadPluralForms(forms))
  {
  }

  /** `plural` inside another word, as in `nplurals`, does not match. */
  lemma NoMatchInsideWord(s: string, p: nat)
    requires 0 < p <= |s| && IsWordChar(s[p - 1])
    ensures MatchAt(s, p).None?
  {
  }

  // ---------------------------------------------------------------------------
  // The messages of the JavaScript catalog

  /** A catalog key: a plain message id, or one form of a plural message. */
  datatype MsgId = Singular(text: string) | PluralForm(text: string, index: int)

  /** A message of the JavaScript catalog: its translation, or its translations by plural form. */
  datatype JsValue = Text(msgstr: string) | Forms(byIndex: map<int, string>)

  /** The `data` written to the JavaScript file. */
  datatype JsCatalog = JsCatalog(domain: string, locale: string, pluralExpr: Option<string>, messages: map<string, JsValue>)

  /** A header line `name: value` (stripped, split at its first ':'), with the name stripped and lower-cased. */
  function HeaderField(line: string): Option<(string, string)>
  {
    var l := Strip(line);
    var k := Find(l, ':');
    if l == [] || k < 0 then None
    else Some((Lower(Strip(l[..k])), l[k + 1..]))
  }

  /** The header lines as fields, line by line. */
  function HeaderFields(lines: seq<string>): (r: seq<Option<(string, string)>>)
    ensures |r| == |lines| && forall i :: 0 <= i < |lines| ==> r[i] == HeaderField(lines[i])
  {
    seq(|lines|, i requires 0 <= i < |lines| => HeaderField(lines[i]))
  }

  /** A header field that names the plural forms. */
  predicate IsPluralForms(f: Option<(string, string)>) {
    f.Some? && f.value.0 == "plural-forms"
  }

  /** The first `Plural-Forms` field at or after `i`, or `|fields|`. */
  function PluralFormsLine(fields: seq<Option<(string, string)>>, i: nat): (k: nat)
    requires i <= |fields|
    ensures i <= k <= |fields|
    ensures k < |fields| ==> IsPluralForms(fields[k])
    ensures forall j :: i <= j < k ==> !IsPluralForms(fields[j])
    decreases |fields| - i
  {
    if i == |fields| || IsPluralForms(fields[i]) then i else PluralFormsLine(fields, i + 1)
  }

  /** The plural expression of a catalog header: none without a `Plural-Forms` line, the ValueError of a bad one. */
  function HeaderPluralExpr(msgstr: string): Result<Option<string>, JsError>
  {
    var fields := HeaderFields(SplitLines(msgstr));
    var k := PluralFormsLine(fields, 0);
    if k == |fields| then Ok(None)
    else
      match PluralExpr(fields[k].value.1)
      case Ok(e) => Ok(Some(e))
      case Err(err) => Err(err)
  }

  /** A header has no plural expression exactly when none of its lines is a `Plural-Forms` line. */
  lemma HeaderWithoutPluralForms(msgstr: string)
    ensures var lines := SplitLines(msgstr);
      HeaderPluralExpr(msgstr) == Ok(None) <==> forall i :: 0 <= i < |lines| ==> !IsPluralForms(HeaderField(lines[i]))
  {
    var lines := SplitLines(msgstr);
    HeaderNoneAt(msgstr);
    NoPluralFormsField(HeaderFields(lines));
    FieldsNamePluralForms(lines);
  }

  lemma HeaderNoneAt(msgstr: string)
    ensures var fields := HeaderFields(SplitLines(msgstr));
      HeaderPluralExpr(msgstr) == Ok(None) <==> PluralFormsLine(fields, 0) == |fields|
  {
  }

  lemma NoPluralFormsField(fields: seq<Option<(string, string)>>)
    ensures PluralFormsLine(fields, 0) == |fields| <==> forall i :: 0 <= i < |fields| ==> !IsPluralForms(fields[i])
  {
  }

  lemma FieldsNamePluralForms(lines: seq<string>)
    ensures (forall i :: 0 <= i < |lines| ==> !IsPluralForms(HeaderFields(lines)[i]))
        <==> forall i :: 0 <= i < |lines| ==> !IsPluralForms(HeaderField(lines[i]))
  {
    var fields := HeaderFields(lines);
    forall i | 0 <= i < |lines|
      ensures IsPluralForms(fields[i]) <==> IsPluralForms(HeaderField(lines[i]))
    {
      assert fields[i] == HeaderField(lines[i]);
    }
  }

  /** Otherwise the plural expression, or the error, is that of the first `Plural-Forms` line. */
  lemma HeaderFirstPluralForms(msgstr: string)
    ensures var lines := SplitLines(msgstr);
      var k := PluralFormsLine(HeaderFields(lines), 0);
      k < |lines| ==>
        && IsPluralForms(HeaderField(lines[k])) && (forall j :: 0 <= j < k ==> !IsPluralForms(HeaderField(lines[j])))
        && (HeaderPluralExpr(msgstr).Ok? <==> PluralExpr(HeaderField(lines[k]).value.1).Ok?)
        && (HeaderPluralExpr(msgstr).Ok? ==> HeaderPluralExpr(msgstr).value == Some(PluralExpr(HeaderField(lines[k]).value.1).value))
  {
    var fields := HeaderFields(SplitLines(msgstr));
    var k := PluralFormsLine(fields, 0);
    if k < |fields| {
      forall j | 0 <= j < k
        ensures !IsPluralForms(HeaderField(SplitLines(msgstr)[j]))
      {
        assert fields[j] == HeaderField(SplitLines(msgstr)[j]);
      }
    }
  }

  /** The plural expression and the messages collected so far. */
  type Collected = (Option<string>, map<string, JsValue>)

  /** How a header entry's translation gives the plural expression (`HeaderPluralExpr` in `write_js`). */
  type HeaderParser = string -> Result<Option<string>, JsError>

  /** One catalog entry added to the collected messages. */
  function AddEntry(acc: Collected, id: MsgId, msgstr: string, header: HeaderParser): (r: Result<Collected, JsError>)
    ensures r.Ok? ==> forall key :: key != id.text ==> (key in r.value.1 <==> key in acc.1)
    ensures r.Ok? ==> forall key :: key in acc.1 && key != id.text ==> r.value.1[key] == acc.1[key]
    ensures r.Ok? && id == Singular("") ==> r.value.1 == acc.1
    ensures r.Ok? && id != Singular("") ==> r.value.0 == acc.0 && id.text in r.value.1
    ensures id.Singular? && id.text != "" ==> r.Ok? && r.value.1[id.text] == Text(msgstr)
    ensures id.PluralForm? ==> (r.Err? <==> id.text in acc.1 && acc.1[id.text].Text?)
    ensures id.PluralForm? && r.Ok? ==>
      && r.value.1[id.text].Forms?
      && id.index in r.value.1[id.text].byIndex && r.value.1[id.text].byIndex[id.index] == msgstr
      && (id.text in acc.1 ==> forall n :: n in acc.1[id.text].byIndex && n != id.index ==>
            n in r.value.1[id.text].byIndex && r.value.1[id.text].byIndex[n] == acc.1[id.text].byIndex[n])
  {
    var (pluralExpr, messages) := acc;
    match id
    case PluralForm(k, n) =>
      if k in messages && messages[k].Text? then Err(NotAMapping(k))
      else
        var forms := if k in messages then messages[k].byIndex else map[];
        Ok((pluralExpr, messages[k := Forms(forms[n := msgstr])]))
    case Singular(k) =>
      if k != "" then Ok((pluralExpr, messages[k := Text(msgstr)]))
      else
        match header(msgstr)
        case Err(err) => Err(err)
        case Ok(None) => Ok(acc)
        case Ok(Some(e)) => Ok((Some(e), messages))
  }

  /** The catalog entries, in iteration order, collected into the JavaScript catalog's messages. */
  function Group(catalog: seq<(MsgId, string)>, header: HeaderParser): Result<Collected, JsError>
  {
    if catalog == [] then Ok((None, map[]))
    else
      var n := |catalog| - 1;
      match Group(catalog[..n], header)
      case Err(err) => Err(err)
      case Ok(acc) => AddEntry(acc, catalog[n].0, catalog[n].1, header)
  }

  /** Once an entry has raised, the rest of the catalog does not matter. */
  lemma {:induction false} GroupErrSticks(catalog: seq<(MsgId, string)>, more: seq<(MsgId, string)>, header: HeaderParser)
    requires Group(catalog, header).Err?
    ensures Group(catalog + more, header) == Group(catalog, header)
    decreases |more|
  {
    if more == [] {
      assert catalog + more == catalog;
    } else {
      var m := |more| - 1;
      GroupErrSticks(catalog, more[..m], header);
      assert (catalog + more)[..|catalog + more| - 1] == catalog + more[..m];
    }
  }

  /** The message ids of a catalog; the header entry has none. */
  ghost function MsgIds(catalog: seq<(MsgId, string)>): set<string> {
    set i | 0 <= i < |catalog| && catalog[i].0 != Singular("") :: catalog[i].0.text
  }

  /** The message ids of one more entry. */
  lemma MsgIdsSnoc(catalog: seq<(MsgId, string)>)
    requires catalog != []
    ensures var n := |catalog| - 1;
      MsgIds(catalog) == MsgIds(catalog[..n]) + if catalog[n].0 == Singular("") then {} else {catalog[n].0.text}
  {
    var n := |catalog| - 1;
    forall key | key in MsgIds(catalog[..n])
      ensures key in MsgIds(catalog)
    {
      var i :| 0 <= i < n && catalog[..n][i].0 != Singular("") && catalog[..n][i].0.text == key;
      assert catalog[i] == catalog[..n][i];
    }
    forall key | key in MsgIds(catalog)
      ensures key in MsgIds(catalog[..n]) || (catalog[n].0 != Singular("") && key == catalog[n].0.text)
    {
      var i :| 0 <= i < |catalog| && catalog[i].0 != Singular("") && catalog[i].0.text == key;
      if i < n {
        assert catalog[..n][i] == catalog[i];
      }
    }
  }

  /** Every message id of the catalog, and nothing else, is a key of the messages. */
  lemma {:induction false} GroupKeys(catalog: seq<(MsgId, string)>, header: HeaderParser)
    requires Group(catalog, header).Ok?
    ensures Group(catalog, header).value.1.Keys == MsgIds(catalog)
  {
    if catalog != [] {
      var n := |catalog| - 1;
      GroupKeys(catalog[..n], header);
      MsgIdsSnoc(catalog);
      var before := Group(catalog[..n], header).value;
      assert Group(catalog, header) == AddEntry(before, catalog[n].0, catalog[n].1, header);
    }
  }

  /** A plain message maps to the translation of its last catalog entry. */
  lemma {:induction false} GroupSingularLast(catalog: seq<(MsgId, string)>, i: nat, k: string, header: HeaderParser)
    requires Group(catalog, header).Ok?
    requires i < |catalog| && catalog[i].0 == Singular(k) && k != ""
    requires forall j :: i < j < |catalog| ==> catalog[j].0.text != k
    ensures k in Group(catalog, header).value.1 && Group(catalog, header).value.1[k] == Text(catalog[i].1)
  {
    var n := |catalog| - 1;
    if i < n {
      assert catalog[..n][i] == catalog[i];
      GroupSingularLast(catalog[..n], i, k, header);
    }
  }

  /** A plural form keeps the translation of its last entry, as long as no plain entry of the same id follows. */
  lemma {:induction false} GroupPluralForm(catalog: seq<(MsgId, string)>, i: nat, k: string, index: int, header: HeaderParser)
    requires Group(catalog, header).Ok?
    requires i < |catalog| && catalog[i].0 == PluralForm(k, index)
    requires forall j :: i < j < |catalog| ==> catalog[j].0 != Singular(k) && catalog[j].0 != PluralForm(k, index)
    ensures k in Group(catalog, header).value.1 && Group(catalog, header).value.1[k].Forms?
    ensures index in Group(catalog, header).value.1[k].byIndex && Group(catalog, header).value.1[k].byIndex[index] == catalog[i].1
  {
    var n := |catalog| - 1;
    if i < n {
      assert catalog[..n][i] == catalog[i];
      GroupPluralForm(catalog[..n], i, k, index, header);
      var before := Group(catalog[..n], header).value;
      var after := Group(catalog, header).value;
      assert Group(catalog, header) == AddEntry(before, catalog[n].0, catalog[n].1, header);
      if catalog[n].0.text == k {
        assert catalog[n].0.PluralForm? && catalog[n].0.index != index;
        assert index in before.1[k].byIndex;
      } else {
        assert after.1[k] == before.1[k];
      }
    }
  }

  /** A plain entry followed later by a plural form of the same id raises. */
  lemma GroupSingularThenPlural(catalog: seq<(MsgId, string)>, i: nat, j: nat, k: string, index: int, header: HeaderParser)
    requires i < j < |catalog| && catalog[i].0 == Singular(k) && k != "" && catalog[j].0 == PluralForm(k, index)
    ensures Group(catalog, header).Err?
  {
    var upTo := catalog[..j + 1];
    assert upTo[..j] == catalog[..j];
    assert upTo[j] == catalog[j];
    if Group(catalog[..j], header).Ok? {
      assert catalog[..j][i] == catalog[i];
      StaysText(catalog[..j], i, k, header);
    }
    assert Group(upTo, header).Err?;
    GroupErrPrefix(catalog, j + 1, header);
  }

  /** After a plain entry, the id maps to a translation until a plural form of it raises. */
  lemma {:induction false} StaysText(catalog: seq<(MsgId, string)>, i: nat, k: string, header: HeaderParser)
    requires Group(catalog, header).Ok?
    requires i < |catalog| && catalog[i].0 == Singular(k) && k != ""
    ensures k in Group(catalog, header).value.1 && Group(catalog, header).value.1[k].Text?
  {
    var n := |catalog| - 1;
    if i < n {
      assert catalog[..n][i] == catalog[i];
      StaysText(catalog[..n], i, k, header);
    }
  }

  /** The plural expression comes from a header entry of the catalog. */
  lemma {:induction false} GroupPluralExprFromHeader(catalog: seq<(MsgId, string)>, header: HeaderParser)
    requires Group(catalog, header).Ok? && Group(catalog, header).value.0.Some?
    ensures exists i :: 0 <= i < |catalog| && catalog[i].0 == Singular("") && header(catalog[i].1) == Ok(Group(catalog, header).value.0)
  {
    var n := |catalog| - 1;
    var before := Group(catalog[..n], header).value;
    if catalog[n].0 == Singular("") && header(catalog[n].1) == Ok(Group(catalog, header).value.0) {
    } else {
      assert Group(catalog, header).value.0 == before.0;
      GroupPluralExprFromHeader(catalog[..n], header);
      var i :| 0 <= i < n && catalog[..n][i].0 == Singular("") && header(catalog[..n][i].1) == Ok(before.0);
      assert catalog[i] == catalog[..n][i];
    }
  }

  /** An error raised by the first `i` entries is the error of the whole catalog. */
  lemma GroupErrPrefix(catalog: seq<(MsgId, string)>, i: nat, header: HeaderParser)
    requires i <= |catalog| && Group(catalog[..i], header).Err?
    ensures Group(catalog, header) == Group(catalog[..i], header)
  {
    GroupErrSticks(catalog[..i], catalog[i..], header);
    assert catalog[..i] + catalog[i..] == catalog;
  }

  /** One header line of `write_js` as a field: the lower-cased name before the first ':' and the rest. */
  method ParseField(line: string) returns (f: Option<(string, string)>)
    ensures f == HeaderField(line)
  {
    var l := Strip(line);
    if l == [] {
      return None;
    }
    var k := Find(l, ':');
    if k < 0 {
      return None;
    }
    return Some((Lower(Strip(l[..k])), l[k + 1..]));
  }

  /** The header loop of `write_js`: the first `Plural-Forms` line's plural expression. */
  method ScanHeader(msgstr: string) returns (r: Result<Option<string>, JsError>)
    ensures r == HeaderPluralExpr(msgstr)
  {
    var lines := SplitLines(msgstr);
    ghost var fields := HeaderFields(lines);
    var i := 0;
    while i < |lines|
      invariant 0 <= i <= |lines|
      invariant PluralFormsLine(fields, 0) == PluralFormsLine(fields, i)
    {
      var f := ParseField(lines[i]);
      assert f == fields[i];
      if f.Some? && f.value.0 == "plural-forms" {
        var e := PluralExpr(f.value.1);
        if e.Err? {
          return Err(e.error);
        }
        return Ok(Some(e.value));
      }
      i := i + 1;
    }
    return Ok(None);
  }

  /**
   * The data of `write_js`: the domain, the locale, the header's plural
   * expression and the messages grouped by id, or the error an entry raised.
   */
  method WriteJs(domain: string, locale: string, catalog: seq<(MsgId, string)>) returns (r: Result<JsCatalog, JsError>)
    ensures Group(catalog, HeaderPluralExpr).Err? ==> r == Err(Group(catalog, HeaderPluralExpr).error)
    ensures Group(catalog, HeaderPluralExpr).Ok? ==> r == Ok(JsCatalog(domain, locale, Group(catalog, HeaderPluralExpr).value.0, Group(catalog, HeaderPluralExpr).value.1))
  {
    var pluralExpr: Option<string> := None;
    var messages: map<string, JsValue> := map[];
    for i := 0 to |catalog|
      invariant Group(catalog[..i], HeaderPluralExpr) == Ok((pluralExpr, messages))
    {
      var (msgid, msgstr) := catalog[i];
      assert catalog[..i + 1][..i] == catalog[..i];
      ghost var step := AddEntry((pluralExpr, messages), msgid, msgstr, HeaderPluralExpr);
      assert Group(catalog[..i + 1], HeaderPluralExpr) == step;
      match msgid
      case PluralForm(k, n) =>
        if k in messages && messages[k].Text? {
          GroupErrPrefix(catalog, i + 1, HeaderPluralExpr);
          return Err(NotAMapping(k));
        }
        var forms := if k in messages then messages[k].byIndex else map[];
        messages := messages[k := Forms(forms[n := msgstr])];
      case Singular(k) =>
        if k != "" {
          messages := messages[k := Text(msgstr)];
        } else {
          var h := ScanHeader(msgstr);
          if h.Err? {
            GroupErrPrefix(catalog, i + 1, HeaderPluralExpr);
            return Err(h.error);
          }
          if h.value.Some? {
            pluralExpr := h.value;
          }
        }
    }
    assert catalog[..|catalog|] == catalog;
    return Ok(JsCatalog(domain, locale, pluralExpr, messages));
  }
}
