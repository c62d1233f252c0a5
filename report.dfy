/**
 * Rules of the ticket report module: how cell values are shown, how `$NAME`
 * variables in a report's SQL become query parameters, which request
 * arguments are report variables, how column names group the headers, and
 * how a report holding a saved custom query is redirected.
 */
module Report {
  import opened Wrappers
  import opened Strings

  // ---------------------------------------------------------------------------
  // Cell values

  /** A value fetched from the database, as far as display is concerned. */
  datatype PyValue = NoneValue | BoolValue(b: bool) | IntValue(i: int) | LongValue(l: int) | TextValue(s: string)

  /** Python truth value. */
  predicate Truthy(v: PyValue) {
    match v
    case NoneValue => false
    case BoolValue(b) => b
    case IntValue(i) => i != 0
    case LongValue(l) => l != 0
    case TextValue(s) => s != []
  }

  /** `unicode(v)`. */
  function Str(v: PyValue): string {
    match v
    case NoneValue => "None"
    case BoolValue(b) => if b then "True" else "False"
    case IntValue(i) => IntToString(i)
    case LongValue(l) => IntToString(l)
    case TextValue(s) => s
  }

  /** `cell_value(v)`: the integer 0 is shown as "0", every other false value as nothing. */
  function CellValue(v: PyValue): (r: string)
    ensures v == IntValue(0) ==> r == "0"
    ensures r == [] <==> !Truthy(v) && v != IntValue(0)
    ensures Truthy(v) ==> r == Str(v)
    ensures v.IntValue? || v.LongValue? ==> r == [] || (forall k :: 1 <= k < |r| ==> IsDigit(r[k]))
  {
    if v == IntValue(0) then "0" else if Truthy(v) then Str(v) else ""
  }

  // ---------------------------------------------------------------------------
  // Splitting the SQL into quoted literals and the rest

  /**
   * Where the literal opened by the quote at `p` ends (exclusive), scanning from
   * `j`, with `lastPair` the first quote of the last "''" pair seen (-1 if none),
   * or -1 when there is no match. This is how the pattern `'(?:[^']|(?:''))*'`
   * matches: doubled quotes stay inside; at the end of the text the match
   * backtracks to the first quote of the last pair; with no pair there is none.
   */
  function LiteralEnd(s: string, p: nat, j: nat, lastPair: int): (e: int)
    requires p < j <= |s|
    requires lastPair == -1 || (p < lastPair < j && s[lastPair] == '\'')
    ensures e == -1 || (p + 2 <= e <= |s| && s[e - 1] == '\'')
    decreases |s| - j
  {
    if j == |s| then (if lastPair == -1 then -1 else lastPair + 1)
    else if s[j] != '\'' then LiteralEnd(s, p, j + 1, lastPair)
    else if j + 1 < |s| && s[j + 1] == '\'' then
      (if j + 2 == |s| then j + 1 else LiteralEnd(s, p, j + 2, j))
    else j + 1
  }

  /** A quoted literal: at least two characters, a quote at each end. */
  predicate IsLiteral(t: string) {
    |t| >= 2 && t[0] == '\'' && t[|t| - 1] == '\''
  }

  /**
   * `re.split` of `s[start..]` by the literal pattern, with `s[start..p]` already
   * known to hold no match: the text pieces at even positions, the literals at
   * odd positions.
   */
  function SplitLiteralsFrom(s: string, start: nat, p: nat): (r: seq<string>)
    requires start <= p <= |s|
    ensures |r| % 2 == 1
    ensures forall k :: 0 <= k < |r| && k % 2 == 1 ==> IsLiteral(r[k])
    decreases |s| - p
  {
    if p == |s| then [s[start..]]
    else if s[p] == '\'' && LiteralEnd(s, p, p + 1, -1) != -1 then
      var e := LiteralEnd(s, p, p + 1, -1);
      var rest := SplitLiteralsFrom(s, e, e);
      assert forall k :: 2 <= k < 2 + |rest| ==> ([s[start..p], s[p..e]] + rest)[k] == rest[k - 2];
      [s[start..p], s[p..e]] + rest
    else SplitLiteralsFrom(s, start, p + 1)
  }

  function SplitLiterals(sql: string): seq<string> {
    SplitLiteralsFrom(sql, 0, 0)
  }

  /** Splitting loses nothing: the pieces concatenate back to the SQL. */
  lemma {:induction false} SplitLiteralsFromConcat(s: string, start: nat, p: nat)
    requires start <= p <= |s|
    ensures Concat(SplitLiteralsFrom(s, start, p)) == s[start..]
    decreases |s| - p
  {
    if p == |s| {
    } else if s[p] == '\'' && LiteralEnd(s, p, p + 1, -1) != -1 {
      var e := LiteralEnd(s, p, p + 1, -1);
      SplitLiteralsFromConcat(s, e, e);
      var rest := SplitLiteralsFrom(s, e, e);
      assert SplitLiteralsFrom(s, start, p) == [s[start..p], s[p..e]] + rest;
      ConcatPair(s[start..p], s[p..e], rest);
      assert s[start..] == s[start..p] + s[p..e] + s[e..];
    } else {
      SplitLiteralsFromConcat(s, start, p + 1);
    }
  }

  lemma ConcatPair(a: string, b: string, rest: seq<string>)
    ensures Concat([a, b] + rest) == a + (b + Concat(rest))
  {
    assert ([a, b] + rest)[1..] == [b] + rest;
    assert ([b] + rest)[1..] == rest;
  }

  lemma SplitLiteralsConcat(sql: string)
    ensures Concat(SplitLiterals(sql)) == sql
  {
    SplitLiteralsFromConcat(sql, 0, 0);
  }

  // ---------------------------------------------------------------------------
  // $NAME variables

  predicate IsNameStart(c: char) { IsAsciiUpper(c) || c == '_' }
  predicate IsNameChar(c: char) { IsNameStart(c) || IsDigit(c) }

  /** A match of `[$]([A-Z_][A-Z0-9_]*)` starts at `i`. */
  predicate VarAt(s: string, i: int)
    requires 0 <= i < |s|
  {
    s[i] == '$' && i + 1 < |s| && IsNameStart(s[i + 1])
  }

  predicate HasVar(s: string) {
    exists i :: 0 <= i < |s| && VarAt(s, i)
  }

  /** A variable name: `[A-Z_][A-Z0-9_]*`. */
  predicate IsName(n: string) {
    n != [] && IsNameStart(n[0]) && forall k :: 0 <= k < |n| ==> IsNameChar(n[k])
  }

  /** The end of the longest run of name characters starting at `j`. */
  function NameEnd(s: string, j: nat): (e: nat)
    requires j <= |s|
    ensures j <= e <= |s|
    ensures forall k :: j <= k < e ==> IsNameChar(s[k])
    ensures e == |s| || !IsNameChar(s[e])
    decreases |s| - j
  {
    if j < |s| && IsNameChar(s[j]) then NameEnd(s, j + 1) else j
  }

  /** `var_re.split(s)`: the texts between the variables and the variable names. */
  datatype VarPieces = VarPieces(texts: seq<string>, names: seq<string>)

  function VarSplitFrom(s: string, start: nat, p: nat): (r: VarPieces)
    requires start <= p <= |s|
    ensures |r.texts| == |r.names| + 1
    ensures forall k :: 0 <= k < |r.names| ==> IsName(r.names[k])
    decreases |s| - p
  {
    if p == |s| then VarPieces([s[start..]], [])
    else if VarAt(s, p) then
      var e := NameEnd(s, p + 2);
      var rest := VarSplitFrom(s, e, e);
      var name := s[p + 1..e];
      assert IsName(name) by {
        assert forall k :: 0 <= k < |name| ==> name[k] == s[p + 1 + k];
      }
      assert forall k :: 1 <= k < 1 + |rest.names| ==> ([name] + rest.names)[k] == rest.names[k - 1];
      VarPieces([s[start..p]] + rest.texts, [name] + rest.names)
    else VarSplitFrom(s, start, p + 1)
  }

  function VarSplit(s: string): (r: VarPieces)
    ensures |r.texts| == |r.names| + 1
  {
    VarSplitFrom(s, 0, 0)
  }

  /** Puts the variables back between the texts. */
  function Weave(texts: seq<string>, names: seq<string>): string
    requires |texts| == |names| + 1
  {
    if names == [] then texts[0] else texts[0] + "$" + names[0] + Weave(texts[1..], names[1..])
  }

  lemma {:induction false} VarSplitFromWeave(s: string, start: nat, p: nat)
    requires start <= p <= |s|
    ensures var r := VarSplitFrom(s, start, p); Weave(r.texts, r.names) == s[start..]
    decreases |s| - p
  {
    if p == |s| {
    } else if VarAt(s, p) {
      var e := NameEnd(s, p + 2);
      VarSplitFromWeave(s, e, e);
      var rest := VarSplitFrom(s, e, e);
      var r := VarSplitFrom(s, start, p);
      assert r.texts[1..] == rest.texts && r.names[1..] == rest.names;
      assert s[start..] == s[start..p] + "$" + s[p + 1..e] + s[e..];
    } else {
      VarSplitFromWeave(s, start, p + 1);
    }
  }

  /** Splitting at the variables and weaving them back gives the text again. */
  lemma VarSplitWeave(s: string)
    ensures var r := VarSplit(s); Weave(r.texts, r.names) == s
  {
    VarSplitFromWeave(s, 0, 0);
  }

  lemma NoVarInSlice(s: string, start: nat, p: nat)
    requires start <= p <= |s|
    requires forall i :: start <= i < p ==> !VarAt(s, i)
    ensures !HasVar(s[start..p])
  {
    var t := s[start..p];
    forall i | 0 <= i < |t|
      ensures !VarAt(t, i)
    {
      assert t[i] == s[start + i];
      assert !VarAt(s, start + i);
      if i + 1 < |t| {
        assert t[i + 1] == s[start + i + 1];
      }
    }
  }

  /** None of the texts holds a variable. */
  predicate NoVarTexts(texts: seq<string>) {
    forall k :: 0 <= k < |texts| ==> !HasVar(texts[k])
  }

  /** No text between the variables holds a variable: the split is maximal. */
  lemma {:induction false} VarSplitFromMaximal(s: string, start: nat, p: nat)
    requires start <= p <= |s|
    requires forall i :: start <= i < p ==> !VarAt(s, i)
    ensures NoVarTexts(VarSplitFrom(s, start, p).texts)
    decreases |s| - p
  {
    if p == |s| {
      NoVarInSlice(s, start, p);
      assert s[start..p] == s[start..];
    } else if VarAt(s, p) {
      var e := NameEnd(s, p + 2);
      NoVarInSlice(s, start, p);
      VarSplitFromMaximal(s, e, e);
      var r := VarSplitFrom(s, start, p);
      var rest := VarSplitFrom(s, e, e);
      assert r.texts == [s[start..p]] + rest.texts;
      forall k | 0 <= k < |r.texts|
        ensures !HasVar(r.texts[k])
      {
        if k > 0 {
          assert r.texts[k] == rest.texts[k - 1];
        }
      }
    } else {
      VarSplitFromMaximal(s, start, p + 1);
      assert VarSplitFrom(s, start, p) == VarSplitFrom(s, start, p + 1);
    }
  }

  lemma VarSplitMaximal(s: string)
    ensures NoVarTexts(VarSplit(s).texts)
  {
    VarSplitFromMaximal(s, 0, 0);
    assert VarSplit(s) == VarSplitFrom(s, 0, 0);
  }

  lemma {:induction false} NoVarNoNames(s: string, start: nat, p: nat)
    requires start <= p <= |s|
    requires forall i :: p <= i < |s| ==> !VarAt(s, i)
    ensures VarSplitFrom(s, start, p).names == []
    decreases |s| - p
  {
    if p < |s| {
      NoVarNoNames(s, start, p + 1);
    }
  }

  // ---------------------------------------------------------------------------
  // Rewriting the pieces

  /** `expr[1:-1]`. */
  function Inner(expr: string): string {
    if |expr| >= 2 then expr[1..|expr| - 1] else []
  }

  function Quote(t: string): string {
    "'" + t + "'"
  }

  /** The arguments of the concatenation that replaces a literal with variables: quoted texts with "%s" between. */
  function LiteralParts(texts: seq<string>): (r: seq<string>)
    requires |texts| >= 1
    ensures |r| == 2 * |texts| - 1
    ensures forall k :: 0 <= k < |r| ==> r[k] == if k % 2 == 0 then Quote(texts[k / 2]) else "%s"
  {
    if |texts| == 1 then [Quote(texts[0])]
    else
      var rest := LiteralParts(texts[1..]);
      var r := [Quote(texts[0]), "%s"] + rest;
      assert forall k :: 2 <= k < |r| ==> r[k] == rest[k - 2] && (k - 2) % 2 == k % 2 && texts[1..][(k - 2) / 2] == texts[k / 2];
      r
  }

  /** The variables a piece references, in order. */
  function PieceNames(expr: string): (r: seq<string>)
    ensures forall k :: 0 <= k < |r| ==> IsName(r[k])
  {
    if StartsWith(expr, "'") then VarSplitFrom(Inner(expr), 0, 0).names
    else VarSplitFrom(expr, 0, 0).names
  }

  /**
   * What a piece becomes: outside literals each variable is replaced by "%s";
   * a literal with variables becomes `concat` of its quoted texts and "%s"
   * markers; a literal without variables stays as it is.
   */
  function PieceText(expr: string, concat: seq<string> -> string): string {
    if StartsWith(expr, "'") then
      var v := VarSplit(Inner(expr));
      if v.names == [] then expr else concat(LiteralParts(v.texts))
    else Join("%s", VarSplit(expr).texts)
  }

  /** A quoted literal without variables is copied unchanged and references nothing. */
  lemma LiteralWithoutVariables(expr: string, concat: seq<string> -> string)
    requires StartsWith(expr, "'") && !HasVar(Inner(expr))
    ensures PieceText(expr, concat) == expr && PieceNames(expr) == []
  {
    NoVarNoNames(Inner(expr), 0, 0);
  }

  /** Outside literals, the rewritten text is the original with every variable replaced by "%s". */
  lemma PlainPiece(expr: string, concat: seq<string> -> string)
    requires !StartsWith(expr, "'")
    ensures var v := VarSplit(expr);
      PieceText(expr, concat) == Join("%s", v.texts) && PieceNames(expr) == v.names
      && Weave(v.texts, v.names) == expr && NoVarTexts(v.texts)
  {
    VarSplitWeave(expr);
    VarSplitMaximal(expr);
  }

  function RewriteAll(pieces: seq<string>, concat: seq<string> -> string): string {
    if pieces == [] then [] else PieceText(pieces[0], concat) + RewriteAll(pieces[1..], concat)
  }

  function NamesAll(pieces: seq<string>): seq<string> {
    if pieces == [] then [] else PieceNames(pieces[0]) + NamesAll(pieces[1..])
  }

  /** Moving one piece from the rest to what is done keeps the concatenations. */
  lemma AllStep(pieces: seq<string>, k: nat, concat: seq<string> -> string, text: string, refs: seq<string>)
    requires k < |pieces|
    ensures text + RewriteAll(pieces[k..], concat) == (text + PieceText(pieces[k], concat)) + RewriteAll(pieces[k + 1..], concat)
    ensures refs + NamesAll(pieces[k..]) == (refs + PieceNames(pieces[k])) + NamesAll(pieces[k + 1..])
  {
    assert pieces[k..][1..] == pieces[k + 1..];
  }

  /** The rewritten SQL. */
  function SubstitutedSql(sql: string, concat: seq<string> -> string): string {
    RewriteAll(SplitLiterals(sql), concat)
  }

  /** Every variable reference of the SQL, in order. */
  function References(sql: string): seq<string> {
    NamesAll(SplitLiterals(sql))
  }

  /** `args.get(name, '')`. */
  function Lookup(args: map<string, string>, name: string): string {
    if name in args then args[name] else ""
  }

  /** The parameter values in order of reference. */
  function ArgValues(args: map<string, string>, refs: seq<string>): (r: seq<string>)
    ensures |r| == |refs|
    ensures forall k :: 0 <= k < |refs| ==> r[k] == Lookup(args, refs[k])
  {
    if refs == [] then []
    else ArgValues(args, refs[..|refs| - 1]) + [Lookup(args, refs[|refs| - 1])]
  }

  /** The referenced names missing from `args`, each at its first reference. */
  function Missing(args: map<string, string>, refs: seq<string>): seq<string> {
    if refs == [] then []
    else
      var m := Missing(args, refs[..|refs| - 1]);
      var x := refs[|refs| - 1];
      if x !in args && x !in m then m + [x] else m
  }

  /** The missing list names exactly the referenced names absent from `args`, each once, in order of first reference. */
  lemma {:induction false} MissingExactlyOnce(args: map<string, string>, refs: seq<string>)
    ensures forall x :: x in Missing(args, refs) <==> x in refs && x !in args
    ensures forall i, j :: 0 <= i < j < |Missing(args, refs)| ==> Missing(args, refs)[i] != Missing(args, refs)[j]
    decreases |refs|
  {
    if refs != [] {
      var init := refs[..|refs| - 1];
      MissingExactlyOnce(args, init);
      assert refs == init + [refs[|refs| - 1]];
    }
  }

  /**
   * What `add_value` has built after the references `refs`: the set of names,
   * the values, the missing names, and the arguments with '' added for each
   * missing name.
   */
  ghost predicate Tracks(args: map<string, string>, refs: seq<string>, names: set<string>, values: seq<string>,
                         missing: seq<string>, a: map<string, string>) {
    && names == SetOf(refs)
    && values == ArgValues(args, refs)
    && missing == Missing(args, refs)
    && (forall n :: n in a <==> n in args || n in missing)
    && (forall n :: n in a ==> a[n] == Lookup(args, n))
    && (forall n :: n in refs ==> n in a)
  }

  lemma ArgValuesAppend(args: map<string, string>, refs: seq<string>, x: string)
    ensures ArgValues(args, refs + [x]) == ArgValues(args, refs) + [Lookup(args, x)]
  {
    assert (refs + [x])[..|refs|] == refs;
  }

  lemma MissingAppend(args: map<string, string>, refs: seq<string>, x: string)
    ensures Missing(args, refs + [x])
         == if x !in args && x !in Missing(args, refs) then Missing(args, refs) + [x] else Missing(args, refs)
  {
    assert (refs + [x])[..|refs|] == refs;
  }

  /** The elements of `refs` as a set. */
  function SetOf(refs: seq<string>): (r: set<string>)
    ensures forall x :: x in r <==> x in refs
  {
    if refs == [] then {} else SetOf(refs[..|refs| - 1]) + {refs[|refs| - 1]}
  }

  lemma NamesAppend(refs: seq<string>, x: string)
    ensures SetOf(refs + [x]) == SetOf(refs) + {x}
  {
    assert (refs + [x])[..|refs|] == refs;
  }

  /** `add_value(x)`: records the name and its value, adding it with '' to the arguments when it is missing. */
  method AddValue(x: string, ghost args: map<string, string>, ghost refs: seq<string>,
                  names: set<string>, values: seq<string>, missing: seq<string>, a: map<string, string>)
    returns (names': set<string>, values': seq<string>, missing': seq<string>, a': map<string, string>)
    requires Tracks(args, refs, names, values, missing, a)
    ensures Tracks(args, refs + [x], names', values', missing', a')
  {
    ArgValuesAppend(args, refs, x);
    MissingAppend(args, refs, x);
    NamesAppend(refs, x);
    names' := names + {x};
    var arg;
    if x in a {
      arg := a[x];
      a' := a;
      missing' := missing;
      assert arg == Lookup(args, x);
    } else {
      assert x !in args && x !in missing;
      arg := "";
      a' := a[x := ""];
      missing' := missing + [x];
    }
    values' := values + [arg];
  }

  lemma AppendNext(refs: seq<string>, ns: seq<string>, j: nat)
    requires j < |ns|
    ensures refs + ns[..j] + [ns[j]] == refs + ns[..j + 1]
  {
    assert ns[..j + 1] == ns[..j] + [ns[j]];
  }

  /** `add_value` for each name of `ns`, in order. */
  method AddValues(ns: seq<string>, ghost args: map<string, string>, ghost refs: seq<string>,
                   names: set<string>, values: seq<string>, missing: seq<string>, a: map<string, string>)
    returns (names': set<string>, values': seq<string>, missing': seq<string>, a': map<string, string>)
    requires Tracks(args, refs, names, values, missing, a)
    ensures Tracks(args, refs + ns, names', values', missing', a')
  {
    names', values', missing', a' := names, values, missing, a;
    ghost var done := refs;
    assert done == refs + ns[..0];
    for j := 0 to |ns|
      invariant done == refs + ns[..j]
      invariant Tracks(args, done, names', values', missing', a')
    {
      names', values', missing', a' := AddValue(ns[j], args, done, names', values', missing', a');
      done := done + [ns[j]];
      AppendNext(refs, ns, j);
    }
    assert ns[..|ns|] == ns;
  }

  /** The arguments left after the unreferenced ones are deleted. */
  lemma RemainingArgs(args: map<string, string>, refs: seq<string>, names: set<string>, values: seq<string>,
                      missing: seq<string>, a: map<string, string>)
    requires Tracks(args, refs, names, values, missing, a)
    ensures var argsOut := map n | n in a && n in names :: a[n];
      (forall n :: n in argsOut <==> n in refs) && (forall n :: n in argsOut ==> argsOut[n] == Lookup(args, n))
  {
  }

  /**
   * `sql_sub_vars(sql, args)`: the rewritten SQL, the parameter values, the
   * missing names, and `args` as the call leaves it (missing names added with
   * '', names the SQL does not reference removed).
   */
  method SqlSubVars(sql: string, args: map<string, string>, concat: seq<string> -> string)
    returns (text: string, values: seq<string>, missing: seq<string>, argsOut: map<string, string>)
    ensures text == SubstitutedSql(sql, concat)
    ensures values == ArgValues(args, References(sql))
    ensures missing == Missing(args, References(sql))
    ensures forall n :: n in argsOut <==> n in References(sql)
    ensures forall n :: n in argsOut ==> argsOut[n] == Lookup(args, n)
  {
    var names, a;
    ghost var refs;
    text, refs, names, values, missing, a := RewritePieces(SplitLiterals(sql), args, concat);
    RemainingArgs(args, refs, names, values, missing, a);
    argsOut := map n | n in a && n in names :: a[n];
  }

  /** The loop of `sql_sub_vars` over the pieces: each rewritten, its names added in order. */
  method RewritePieces(pieces: seq<string>, args: map<string, string>, concat: seq<string> -> string)
    returns (text: string, ghost refs: seq<string>, names: set<string>, values: seq<string>, missing: seq<string>, a: map<string, string>)
    ensures text == RewriteAll(pieces, concat) && refs == NamesAll(pieces)
    ensures Tracks(args, refs, names, values, missing, a)
  {
    names := {};
    refs := [];
    a := args;
    values := [];
    missing := [];
    text := "";
    for k := 0 to |pieces|
      invariant text + RewriteAll(pieces[k..], concat) == RewriteAll(pieces, concat)
      invariant refs + NamesAll(pieces[k..]) == NamesAll(pieces)
      invariant Tracks(args, refs, names, values, missing, a)
    {
      var expr := pieces[k];
      var ns := PieceNames(expr);
      names, values, missing, a := AddValues(ns, args, refs, names, values, missing, a);
      AllStep(pieces, k, concat, text, refs);
      refs := refs + ns;
      text := text + PieceText(expr, concat);
    }
    assert pieces[|pieces|..] == [];
  }

  // ---------------------------------------------------------------------------
  // Report variables from the request

  /** `name.isupper()` for ASCII names: some upper-case letter and no lower-case one. */
  predicate IsUpper(s: string) {
    (exists i :: 0 <= i < |s| && IsAsciiUpper(s[i])) && forall i :: 0 <= i < |s| ==> !IsAsciiLower(s[i])
  }

  /** `get_var_args(req)`: the upper-case request arguments, and USER defaulting to the authenticated name. */
  method GetVarArgs(requestArgs: map<string, string>, authname: string) returns (reportArgs: map<string, string>)
    ensures forall k :: k in reportArgs <==> (k in requestArgs && IsUpper(k)) || k == "USER"
    ensures forall k :: k in requestArgs && IsUpper(k) ==> reportArgs[k] == requestArgs[k]
    ensures "USER" !in requestArgs ==> reportArgs["USER"] == authname
  {
    reportArgs := map[];
    var keys := requestArgs.Keys;
    while keys != {}
      invariant keys <= requestArgs.Keys
      invariant forall k :: k in reportArgs <==> k in requestArgs && k !in keys && IsUpper(k)
      invariant forall k :: k in reportArgs ==> reportArgs[k] == requestArgs[k]
      decreases keys
    {
      var k :| k in keys;
      if IsUpper(k) {
        reportArgs := reportArgs[k := requestArgs[k]];
      }
      keys := keys - {k};
    }
    assert IsUpper("USER") by {
      assert IsAsciiUpper("USER"[0]);
    }
    if "USER" !in reportArgs {
      reportArgs := reportArgs["USER" := authname];
    }
  }

  // ---------------------------------------------------------------------------
  // Header groups

  /** A column header: the column name, its title, and whether it is hidden. */
  datatype Header = Header(col: string, title: string, hidden: bool)

  /** The naming conventions: `__x__`, `_x_` (a row of its own), `_x`, `x_` (ends a group), or plain. */
  datatype ColumnKind = Internal | FullRow | Hidden | GroupEnd | Plain

  function Kind(col: string): ColumnKind
    requires col != []
  {
    if StartsWith(col, "__") && EndsWith(col, "__") then Internal
    else if col[0] == '_' && col[|col| - 1] == '_' then FullRow
    else if col[0] == '_' then Hidden
    else if col[|col| - 1] == '_' then GroupEnd
    else Plain
  }

  /** The header of a column: its field label or else its cleaned-up name; `__x__` and `_x` are hidden. */
  function MakeHeader(col: string, labels: map<string, string>): (h: Header)
    requires col != []
    ensures h.col == col
    ensures h.title == if col in labels then labels[col] else Capitalize(StripChar(col, '_'))
    ensures h.hidden <==> Kind(col) in {Internal, Hidden}
  {
    Header(col, if col in labels then labels[col] else Capitalize(StripChar(col, '_')), Kind(col) in {Internal, Hidden})
  }

  /** The column name was empty, which makes the naming test fail with an index error. */
  datatype GroupingError = EmptyColumnName

  function AppendLast(groups: seq<seq<Header>>, h: Header): (r: seq<seq<Header>>)
    requires |groups| > 0
    ensures |r| == |groups| && r[|r| - 1] == groups[|groups| - 1] + [h]
    ensures forall k :: 0 <= k < |r| - 1 ==> r[k] == groups[k]
  {
    groups[..|groups| - 1] + [groups[|groups| - 1] + [h]]
  }

  /** Places one header: `_x_` gets a group of its own, `x_` ends its group, others join the current group. */
  function AddHeader(groups: seq<seq<Header>>, h: Header): (r: seq<seq<Header>>)
    requires |groups| > 0 && h.col != []
    ensures |r| > 0
  {
    match Kind(h.col)
    case FullRow => groups + [[h], []]
    case GroupEnd => AppendLast(groups, h) + [[]]
    case _ => AppendLast(groups, h)
  }

  /** The header groups of the columns. */
  function Grouping(cols: seq<string>, labels: map<string, string>): (r: Result<seq<seq<Header>>, GroupingError>)
    ensures r.Ok? ==> |r.value| > 0
  {
    if cols == [] then Ok([[]])
    else
      match Grouping(cols[..|cols| - 1], labels)
      case Err(e) => Err(e)
      case Ok(groups) =>
        var col := cols[|cols| - 1];
        if col == [] then Err(EmptyColumnName) else Ok(AddHeader(groups, MakeHeader(col, labels)))
  }

  /** Grouping fails exactly when some column name is empty. */
  lemma {:induction false} GroupingFailsOnEmptyName(cols: seq<string>, labels: map<string, string>)
    ensures Grouping(cols, labels).Err? <==> exists i :: 0 <= i < |cols| && cols[i] == []
    decreases |cols|
  {
    if cols != [] {
      var n := |cols| - 1;
      var init := cols[..n];
      GroupingFailsOnEmptyName(init, labels);
      GroupingErrStep(cols, labels);
      if cols[n] != [] {
        if exists i :: 0 <= i < |cols| && cols[i] == [] {
          var i :| 0 <= i < |cols| && cols[i] == [];
          assert init[i] == cols[i];
        }
        if exists i :: 0 <= i < n && init[i] == [] {
          var i :| 0 <= i < n && init[i] == [];
          assert cols[i] == init[i];
        }
      }
    }
  }

  /** One more column fails the grouping when the columns before it did or its name is empty. */
  lemma GroupingErrStep(cols: seq<string>, labels: map<string, string>)
    requires cols != []
    ensures Grouping(cols, labels).Err? <==> Grouping(cols[..|cols| - 1], labels).Err? || cols[|cols| - 1] == []
  {
  }

  /** Once a prefix fails, the whole grouping fails. */
  lemma {:induction false} GroupingErrorPersists(cols: seq<string>, labels: map<string, string>, n: nat)
    requires n <= |cols| && Grouping(cols[..n], labels).Err?
    ensures Grouping(cols, labels) == Grouping(cols[..n], labels)
    decreases |cols| - n
  {
    if n < |cols| {
      assert cols[..n + 1][..n] == cols[..n];
      GroupingErrorPersists(cols, labels, n + 1);
    } else {
      assert cols[..n] == cols;
    }
  }

  function Flatten(groups: seq<seq<Header>>): seq<Header> {
    if groups == [] then [] else groups[0] + Flatten(groups[1..])
  }

  lemma {:induction false} FlattenAppend(a: seq<seq<Header>>, b: seq<seq<Header>>)
    ensures Flatten(a + b) == Flatten(a) + Flatten(b)
    decreases |a|
  {
    if a != [] {
      assert (a + b)[1..] == a[1..] + b;
      FlattenAppend(a[1..], b);
    } else {
      assert a + b == b;
    }
  }

  lemma FlattenSnoc(groups: seq<seq<Header>>, g: seq<Header>)
    ensures Flatten(groups + [g]) == Flatten(groups) + g
  {
    FlattenAppend(groups, [g]);
    assert [g][1..] == [];
  }

  lemma FlattenAppendLast(groups: seq<seq<Header>>, h: Header)
    requires |groups| > 0
    ensures Flatten(AppendLast(groups, h)) == Flatten(groups) + [h]
  {
    var init := groups[..|groups| - 1];
    var last := groups[|groups| - 1];
    SnocSplit(groups);
    FlattenSnoc(init, last);
    FlattenSnoc(init, last + [h]);
    SnocAssoc(Flatten(init), last, h);
  }

  lemma SnocSplit<T>(s: seq<T>)
    requires |s| > 0
    ensures s == s[..|s| - 1] + [s[|s| - 1]]
  {
  }

  lemma SnocAssoc<T>(a: seq<T>, b: seq<T>, x: T)
    ensures a + (b + [x]) == (a + b) + [x]
  {
  }

  lemma FlattenOwnGroup(groups: seq<seq<Header>>, h: Header)
    ensures Flatten(groups + [[h], []]) == Flatten(groups) + [h]
  {
    FlattenSnoc(groups, [h]);
    FlattenSnoc(groups + [[h]], []);
    assert groups + [[h], []] == groups + [[h]] + [[]];
  }

  lemma FlattenEndGroup(groups: seq<seq<Header>>, h: Header)
    requires |groups| > 0
    ensures Flatten(AppendLast(groups, h) + [[]]) == Flatten(groups) + [h]
  {
    FlattenAppendLast(groups, h);
    FlattenSnoc(AppendLast(groups, h), []);
  }

  /** Placing a header adds it at the end of the flattened groups. */
  lemma FlattenAddHeader(groups: seq<seq<Header>>, h: Header)
    requires |groups| > 0 && h.col != []
    ensures Flatten(AddHeader(groups, h)) == Flatten(groups) + [h]
  {
    match Kind(h.col)
    case FullRow => FlattenOwnGroup(groups, h);
    case GroupEnd => FlattenEndGroup(groups, h);
    case _ => FlattenAppendLast(groups, h);
  }

  /** The headers of the columns in order. */
  function HeadersOf(cols: seq<string>, labels: map<string, string>): seq<Header>
    requires forall i :: 0 <= i < |cols| ==> cols[i] != []
  {
    if cols == [] then [] else HeadersOf(cols[..|cols| - 1], labels) + [MakeHeader(cols[|cols| - 1], labels)]
  }

  /** Reading the groups one after the other gives every column's header once, in column order. */
  lemma {:induction false} GroupingKeepsOrder(cols: seq<string>, labels: map<string, string>)
    requires Grouping(cols, labels).Ok?
    ensures forall i :: 0 <= i < |cols| ==> cols[i] != []
    ensures Flatten(Grouping(cols, labels).value) == HeadersOf(cols, labels)
    decreases |cols|
  {
    GroupingFailsOnEmptyName(cols, labels);
    if cols != [] {
      var init := cols[..|cols| - 1];
      GroupingKeepsOrder(init, labels);
      FlattenAddHeader(Grouping(init, labels).value, MakeHeader(cols[|cols| - 1], labels));
    }
  }

  /** A header that ends a group or needs one of its own. */
  predicate Closes(h: Header) {
    h.col != [] && Kind(h.col) in {FullRow, GroupEnd}
  }

  /**
   * The shape of the groups: a `_x_` header is alone in its group, a `x_`
   * header is last in its group, and the last group (the one still open) holds
   * neither.
   */
  predicate WellGrouped(groups: seq<seq<Header>>) {
    && |groups| > 0
    && (forall k, j :: 0 <= k < |groups| && 0 <= j < |groups[k]| && groups[k][j].col != [] && Kind(groups[k][j].col) == FullRow
          ==> |groups[k]| == 1)
    && (forall k, j :: 0 <= k < |groups| && 0 <= j < |groups[k]| && Closes(groups[k][j]) ==> j == |groups[k]| - 1)
    && (var open := groups[|groups| - 1]; forall j :: 0 <= j < |open| ==> !Closes(open[j]))
  }

  lemma AddHeaderWellGrouped(groups: seq<seq<Header>>, h: Header)
    requires WellGrouped(groups) && h.col != []
    ensures WellGrouped(AddHeader(groups, h))
  {
    var r := AddHeader(groups, h);
    var n := |groups|;
    match Kind(h.col)
    case FullRow =>
      assert forall k :: 0 <= k < n ==> r[k] == groups[k];
      assert r[n] == [h] && r[n + 1] == [];
    case GroupEnd =>
      assert forall k :: 0 <= k < n - 1 ==> r[k] == groups[k];
      assert r[n - 1] == groups[n - 1] + [h] && r[n] == [];
    case _ =>
      assert forall k :: 0 <= k < n - 1 ==> r[k] == groups[k];
      assert r[n - 1] == groups[n - 1] + [h];
  }

  /** Every grouping has the shape the naming conventions promise. */
  lemma {:induction false} GroupingWellGrouped(cols: seq<string>, labels: map<string, string>)
    requires Grouping(cols, labels).Ok?
    ensures WellGrouped(Grouping(cols, labels).value)
    decreases |cols|
  {
    if cols != [] {
      var init := cols[..|cols| - 1];
      GroupingWellGrouped(init, labels);
      AddHeaderWellGrouped(Grouping(init, labels).value, MakeHeader(cols[|cols| - 1], labels));
    }
  }

  /** One more column extends a successful grouping by that column's header. */
  lemma GroupingStep(cols: seq<string>, labels: map<string, string>, i: nat, groups: seq<seq<Header>>)
    requires i < |cols| && cols[i] != [] && Grouping(cols[..i], labels) == Ok(groups)
    ensures Grouping(cols[..i + 1], labels) == Ok(AddHeader(groups, MakeHeader(cols[i], labels)))
  {
    assert cols[..i + 1][..i] == cols[..i];
  }

  /** One iteration of the header-grouping loop: the header of `col`, placed by its naming convention. */
  method PlaceHeader(groups: seq<seq<Header>>, col: string, labels: map<string, string>) returns (groups': seq<seq<Header>>)
    requires |groups| > 0 && col != []
    ensures groups' == AddHeader(groups, MakeHeader(col, labels))
  {
    var title := if col in labels then labels[col] else Capitalize(StripChar(col, '_'));
    var header := Header(col, title, false);
    ghost var kind := Kind(col);
    assert MakeHeader(col, labels) == Header(col, title, kind == Internal || kind == Hidden);
    var last := groups[|groups| - 1];
    if StartsWith(col, "__") && EndsWith(col, "__") {
      header := header.(hidden := true);
      groups' := groups[..|groups| - 1] + [last + [header]];
      assert groups' == AppendLast(groups, header);
      assert kind == Internal;
    } else if col[0] == '_' && col[|col| - 1] == '_' {
      groups' := groups + [[header], []];
      assert kind == FullRow;
    } else if col[0] == '_' {
      header := header.(hidden := true);
      groups' := groups[..|groups| - 1] + [last + [header]];
      assert groups' == AppendLast(groups, header);
      assert kind == Hidden;
    } else if col[|col| - 1] == '_' {
      groups' := groups[..|groups| - 1] + [last + [header]] + [[]];
      assert groups' == AppendLast(groups, header) + [[]];
      assert kind == GroupEnd;
    } else {
      groups' := groups[..|groups| - 1] + [last + [header]];
      assert groups' == AppendLast(groups, header);
      assert kind == Plain;
    }
  }

  /** The header-grouping loop of the report view. */
  method GroupHeaders(cols: seq<string>, labels: map<string, string>) returns (r: Result<seq<seq<Header>>, GroupingError>)
    ensures r == Grouping(cols, labels)
  {
    var groups: seq<seq<Header>> := [[]];
    for i := 0 to |cols|
      invariant Grouping(cols[..i], labels) == Ok(groups)
    {
      var col := cols[i];
      if col == [] {
        assert cols[..i + 1][..i] == cols[..i];
        assert Grouping(cols[..i + 1], labels) == Err(EmptyColumnName);
        GroupingErrorPersists(cols, labels, i + 1);
        return Err(EmptyColumnName);
      }
      GroupingStep(cols, labels, i, groups);
      groups := PlaceHeader(groups, col, labels);
    }
    assert cols[..|cols|] == cols;
    r := Ok(groups);
  }

  // ---------------------------------------------------------------------------
  // Saved custom queries

  function ConcatStripped(lines: seq<string>): string {
    if lines == [] then [] else Strip(lines[0]) + ConcatStripped(lines[1..])
  }

  /** The report's SQL with every line stripped and the lines joined. */
  function SavedQueryText(sql: string): string {
    ConcatStripped(SplitLines(sql))
  }

  /** Where a report's SQL sends the viewer. */
  datatype SavedQueryRoute =
    | NotSaved                        // ordinary SQL report
    | UrlQuery(query: string)         // redirect to the query module with this query string
    | QueryExpression(expr: string)   // a query-language expression for the query module
    | WrongReport                     // redirect to the edit page: another report number is given

  /** How the number in a query's `report=` argument is compared with the report's own. */
  datatype ReportCheck =
    | AsWritten   // `report=<id>` occurs somewhere in the query
    | Exact       // a `report=<id>` argument: it starts an argument and no digit follows

  /**
   * `report=<id>` is an argument of `q`: it starts the text or follows '?' or
   * '&', and it is not followed by another digit.
   */
  predicate NamesExactly(q: string, reportId: string) {
    exists i :: 0 <= i <= |q| && StartsWith(q[i..], reportId)
      && (i == 0 || q[i - 1] == '?' || q[i - 1] == '&')
      && (i + |reportId| == |q| || !IsDigit(q[i + |reportId|]))
  }

  predicate NamesReport(check: ReportCheck, q: string, reportId: string) {
    match check
    case AsWritten => Contains(q, reportId)
    case Exact => NamesExactly(q, reportId)
  }

  /** Where the joined query text of report `id` sends the viewer. */
  function RouteQuery(query: string, id: int, check: ReportCheck): (r: SavedQueryRoute)
    ensures r.QueryExpression? <==> StartsWith(query, "query:") && !StartsWith(query, "query:?")
    ensures r.NotSaved? <==> query == [] || (query[0] != '?' && !StartsWith(query, "query:"))
  {
    QueryPrefixes(query);
    if query != [] && (query[0] == '?' || StartsWith(query, "query:?")) then
      RouteUrlQuery(if query[0] == '?' then query else query[6..], id, check)
    else if StartsWith(query, "query:") then QueryExpression(query[6..])
    else NotSaved
  }

  /** `query:?` starts with `query:`, and neither starts with '?'. */
  lemma QueryPrefixes(query: string)
    ensures StartsWith(query, "query:?") ==> StartsWith(query, "query:")
    ensures StartsWith(query, "query:") ==> |query| >= 6 && query[0] == 'q'
  {
    if StartsWith(query, "query:?") {
      assert query[..6] == query[..7][..6];
    }
  }

  /** A query string: kept when it names the report, given this report's number when it names none. */
  function RouteUrlQuery(q: string, id: int, check: ReportCheck): (r: SavedQueryRoute)
    requires q != [] && q[0] == '?'
    ensures r.UrlQuery? || r.WrongReport?
  {
    var reportId := "report=" + IntToString(id);
    if Contains(q, "report=") then
      if NamesReport(check, q, reportId) then UrlQuery(q) else WrongReport
    else UrlQuery(q + (if q[|q| - 1] != '?' then "&" else "") + reportId)
  }

  /**
   * The `?` form: without a `report=` argument the query gets this report's
   * number appended, after '&' unless it ends in '?'; with one, it passes only
   * when the number is this report's.
   */
  lemma UrlQueryRewrite(query: string, id: int)
    requires query != [] && query[0] == '?'
    ensures var reportId := "report=" + IntToString(id);
      && (!Contains(query, "report=") ==>
            RouteQuery(query, id, Exact) == UrlQuery(query + (if query[|query| - 1] == '?' then "" else "&") + reportId))
      && (Contains(query, "report=") ==> (RouteQuery(query, id, Exact) == UrlQuery(query) <==> NamesExactly(query, reportId)))
      && (Contains(query, "report=") && !NamesExactly(query, reportId) ==> RouteQuery(query, id, Exact) == WrongReport)
  {
  }

  /** The `query:?` form drops the `query:` prefix and is then handled like the `?` form. */
  lemma QueryPrefixDropped(query: string, id: int, check: ReportCheck)
    requires StartsWith(query, "query:?")
    ensures query[6..] != [] && query[6..][0] == '?'
    ensures RouteQuery(query, id, check) == RouteQuery(query[6..], id, check)
  {
    assert query[6] == '?';
    assert query[0] == 'q';
  }

  /** An accepted `report=` argument names this report exactly, so the check as written accepts at least as much. */
  lemma ExactImpliesAsWritten(query: string, id: int)
    ensures RouteQuery(query, id, Exact).UrlQuery? ==> RouteQuery(query, id, AsWritten) == RouteQuery(query, id, Exact)
  {
  }

  /** A one-line SQL text without surrounding space is its own query text. */
  lemma OneLineQueryText(sql: string)
    requires sql != [] && LineEnd(sql) == |sql| && !IsSpace(sql[0]) && !IsSpace(sql[|sql| - 1])
    ensures SavedQueryText(sql) == sql
  {
    assert SplitLines(sql) == [sql];
    assert ConcatStripped([sql]) == Strip(sql) + ConcatStripped([]);
  }

  /** A `report=` argument that merely starts with this report's number passes the check as written. */
  lemma AsWrittenAcceptsOtherReport()
    ensures RouteQuery("?report=12", 1, AsWritten) == UrlQuery("?report=12")
    ensures RouteQuery("?report=12", 1, Exact) == WrongReport
  {
    var q := "?report=12";
    var rid := "report=" + IntToString(1);
    assert rid == "report=1";
    assert StartsWith(q[1..], "report=");
    assert StartsWith(q[1..], rid);
    forall i | 0 <= i <= |q| && StartsWith(q[i..], rid)
      ensures i + |rid| < |q| && IsDigit(q[i + |rid|])
    {
      assert q[i] == 'r';
      assert i == 1;
    }
  }

  /** Report 1 with `?xreport=1`: the substring check passes it, the argument check does not. */
  lemma AsWrittenAcceptsLongerName()
    ensures RouteQuery("?xreport=1", 1, AsWritten) == UrlQuery("?xreport=1")
    ensures RouteQuery("?xreport=1", 1, Exact) == WrongReport
  {
    var q := "?xreport=1";
    var rid := "report=" + IntToString(1);
    assert rid == "report=1";
    assert StartsWith(q[2..], "report=");
    assert StartsWith(q[2..], rid);
    forall i | 0 <= i <= |q| && StartsWith(q[i..], rid)
      ensures i != 0 && q[i - 1] == 'x'
    {
      assert q[i] == 'r';
      assert i == 2;
    }
  }
}
