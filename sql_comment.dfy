/**
 * The leading-comment scanner of src/include/utils/sqlcomment.h.
 *
 * A query may start with a comment: the opener (the characters '/' and '*'),
 * a list of options such as `ur,idx,`, and the closer ('*' then '/'). Each
 * token that is terminated by a comma and lies before the closer is an
 * option: a token beginning with "ur" asks for the UnsafeRow result format,
 * one beginning with "idx" asks for index use in plain plans, and any other
 * token is rejected.
 */
module SqlCommentScan {
  import opened PgErrors
  import opened DecimalParse

  /** The two options a leading comment can switch on. */
  datatype SqlComment = SqlComment(unsaferowFormat: bool, useIdxInPlain: bool)

  /** `{ false, false }`: what a query without options gets. */
  const NoOptions := SqlComment(false, false)

  predicate StartsWith(s: string, prefix: string) {
    |prefix| <= |s| && s[..|prefix|] == prefix
  }

  /** `strncmp(&sql[at], lit, |lit|) == 0` for a literal without NUL. */
  predicate MatchesAt(sql: string, at: nat, lit: string) {
    forall k :: 0 <= k < |lit| ==> At(sql, at + k) == lit[k]
  }

  /** A token the scanner accepts. */
  predicate Recognized(tok: string) {
    StartsWith(tok, "ur") || StartsWith(tok, "idx")
  }

  // ---------------------------------------------------------------------------
  // The specification

  /** Whether the closer starts at position `m`. */
  predicate ClosesAt(sql: string, m: nat)
    requires m < |sql|
  {
    sql[m] == '*' && At(sql, m + 1) == '/'
  }

  /** The first position from `i` on where the closer starts, or |sql| when there is none. */
  function FindClose(sql: string, i: nat): (k: nat)
    requires i <= |sql|
    ensures i <= k <= |sql|
    ensures k < |sql| ==> ClosesAt(sql, k)
    ensures forall m :: i <= m < k ==> !ClosesAt(sql, m)
    decreases |sql| - i
  {
    if i == |sql| then i
    else if ClosesAt(sql, i) then i
    else FindClose(sql, i + 1)
  }

  /** The position of the first `c` in `s`, or |s| when there is none. */
  function IndexOf(s: string, c: char): (k: nat)
    ensures k <= |s|
    ensures forall m :: 0 <= m < k ==> s[m] != c
    ensures k < |s| ==> s[k] == c
  {
    if s == [] then 0
    else if s[0] == c then 0
    else 1 + IndexOf(s[1..], c)
  }

  /** The comma-terminated tokens of `body`, in order; text after the last comma is no token. */
  function Tokens(body: string): seq<string>
    decreases |body|
  {
    var k := IndexOf(body, ',');
    if k == |body| then [] else [body[..k]] + Tokens(body[k + 1..])
  }

  /** The effect of one token on the options. */
  function Step(tok: string, sc: SqlComment): Result<SqlComment> {
    if StartsWith(tok, "ur") then Ok(sc.(unsaferowFormat := true))
    else if StartsWith(tok, "idx") then Ok(sc.(useIdxInPlain := true))
    else Error(UnknownCommentParameter)
  }

  /** The tokens applied left to right; the first unknown token raises the error. */
  function ApplyTokens(toks: seq<string>, sc: SqlComment): (r: Result<SqlComment>)
    // the only error is the unknown-parameter report
    ensures r.Error? ==> r.report == UnknownCommentParameter
    // flags that were on stay on
    ensures r.Ok? ==> (sc.unsaferowFormat ==> r.value.unsaferowFormat) && (sc.useIdxInPlain ==> r.value.useIdxInPlain)
  {
    if toks == [] then Ok(sc)
    else match Step(toks[0], sc)
      case Error(e) => Error(e)
      case Ok(next) => ApplyTokens(toks[1..], next)
  }

  /**
   * What ParseSqlComment returns for `sql`: no options without the opener or
   * without a closer after it, otherwise the tokens of the text between.
   */
  function ParseSqlCommentSpec(sql: string): (r: Result<SqlComment>)
    // a query that does not start with the opener gets no options
    ensures !StartsWith(sql, "/*") ==> r == Ok(NoOptions)
    // the scanner raises only the unknown-parameter report
    ensures r.Error? ==> r.report == UnknownCommentParameter && r.report.Code() == InvalidParameterValue
  {
    if At(sql, 0) != '/' || At(sql, 1) != '*' then Ok(NoOptions)
    else
      var idx := FindClose(sql, 2);
      if idx == |sql| then Ok(NoOptions)
      else ApplyTokens(Tokens(sql[2..idx]), NoOptions)
  }

  // ---------------------------------------------------------------------------
  // The scanner

  /** The tokens of a stretch that starts with a comma-free token ending at a comma. */
  lemma {:induction false} TokensSplit(body: string, k: nat)
    requires k < |body| && body[k] == ','
    requires forall m :: 0 <= m < k ==> body[m] != ','
    ensures Tokens(body) == [body[..k]] + Tokens(body[k + 1..])
  {
  }

  /**
   * The token loop of the scanner, one character at a time: `sidx` is where
   * the current token starts and `eidx` the next character to look at.
   */
  function ScanFrom(sql: string, sidx: nat, eidx: nat, idx: nat, sc: SqlComment): Result<SqlComment>
    requires sidx <= eidx <= idx <= |sql|
    decreases idx - eidx
  {
    if eidx == idx then Ok(sc)
    else if sql[eidx] != ',' then ScanFrom(sql, sidx, eidx + 1, idx, sc)
    else
      var step := MatchStep(sql, sidx, sc);
      if step.Error? then step else ScanFrom(sql, eidx + 1, eidx + 1, idx, step.value)
  }

  /** The strncmp tests of one token at `sidx`, as the scanner writes them. */
  function MatchStep(sql: string, sidx: nat, sc: SqlComment): Result<SqlComment> {
    if MatchesAt(sql, sidx, "ur") then Ok(sc.(unsaferowFormat := true))
    else if MatchesAt(sql, sidx, "idx") then Ok(sc.(useIdxInPlain := true))
    else Error(UnknownCommentParameter)
  }

  /** For a token that a comma follows, the strncmp tests decide as Step does. */
  lemma MatchStepIsStep(sql: string, sidx: nat, eidx: nat, sc: SqlComment)
    requires sidx <= eidx < |sql| && sql[eidx] == ','
    ensures MatchStep(sql, sidx, sc) == Step(sql[sidx..eidx], sc)
  {
    MatchesAtIsPrefix(sql, sidx, eidx, "ur");
    MatchesAtIsPrefix(sql, sidx, eidx, "idx");
  }

  /** The character-level token loop applies exactly the comma-terminated tokens, in order. */
  lemma {:induction false} ScanFromAppliesTokens(sql: string, sidx: nat, eidx: nat, idx: nat, sc: SqlComment)
    requires sidx <= eidx <= idx <= |sql|
    requires forall m :: sidx <= m < eidx ==> sql[m] != ','
    ensures ScanFrom(sql, sidx, eidx, idx, sc) == ApplyTokens(Tokens(sql[sidx..idx]), sc)
    decreases idx - eidx, 1
  {
    if eidx == idx {
      NoCommaNoTokens(sql[sidx..idx]);
    } else if sql[eidx] != ',' {
      ScanFromAppliesTokens(sql, sidx, eidx + 1, idx, sc);
    } else {
      ScanAtComma(sql, sidx, eidx, idx, sc);
    }
  }

  /** At a comma the loop matches the token as Step does, then goes on with the rest. */
  lemma {:induction false} ScanAtComma(sql: string, sidx: nat, eidx: nat, idx: nat, sc: SqlComment)
    requires sidx <= eidx < idx <= |sql| && sql[eidx] == ','
    requires forall m :: sidx <= m < eidx ==> sql[m] != ','
    ensures ScanFrom(sql, sidx, eidx, idx, sc) == ApplyTokens(Tokens(sql[sidx..idx]), sc)
    decreases idx - eidx, 0
  {
    var tok := sql[sidx..eidx];
    TokensAtComma(sql, sidx, eidx, idx);
    ApplyFirstToken(tok, Tokens(sql[eidx + 1..idx]), sc);
    MatchStepIsStep(sql, sidx, eidx, sc);
    if Step(tok, sc).Ok? {
      ScanFromAppliesTokens(sql, eidx + 1, eidx + 1, idx, Step(tok, sc).value);
    }
  }

  /** A comma at `eidx` ends the token that starts at `sidx`. */
  lemma TokensAtComma(sql: string, sidx: nat, eidx: nat, idx: nat)
    requires sidx <= eidx < idx <= |sql| && sql[eidx] == ','
    requires forall m :: sidx <= m < eidx ==> sql[m] != ','
    ensures Tokens(sql[sidx..idx]) == [sql[sidx..eidx]] + Tokens(sql[eidx + 1..idx])
  {
    var body, k := sql[sidx..idx], eidx - sidx;
    forall m | 0 <= m < k
      ensures body[m] != ','
    {
      assert body[m] == sql[sidx + m];
    }
    TokensSplit(body, k);
    assert body[..k] == sql[sidx..eidx];
    assert body[k + 1..] == sql[eidx + 1..idx];
  }

  /** Applying a token list is applying its first token, then the rest. */
  lemma ApplyFirstToken(tok: string, rest: seq<string>, sc: SqlComment)
    ensures Step(tok, sc).Error? ==> ApplyTokens([tok] + rest, sc) == Error(Step(tok, sc).report)
    ensures Step(tok, sc).Ok? ==> ApplyTokens([tok] + rest, sc) == ApplyTokens(rest, Step(tok, sc).value)
  {
    assert ([tok] + rest)[0] == tok;
    assert ([tok] + rest)[1..] == rest;
  }

  /** strncmp against a literal at the start of a token that a comma follows is a prefix test. */
  lemma MatchesAtIsPrefix(sql: string, sidx: nat, eidx: nat, lit: string)
    requires sidx <= eidx < |sql| && sql[eidx] == ','
    requires ',' !in lit
    ensures MatchesAt(sql, sidx, lit) <==> StartsWith(sql[sidx..eidx], lit)
  {
    var tok := sql[sidx..eidx];
    if |lit| > |tok| {
      assert At(sql, sidx + |tok|) == ',' != lit[|tok|];
    }
    if StartsWith(tok, lit) {
      forall k | 0 <= k < |lit|
        ensures At(sql, sidx + k) == lit[k]
      {
        assert tok[..|lit|][k] == lit[k];
      }
    }
    if MatchesAt(sql, sidx, lit) && |lit| <= |tok| {
      assert forall k :: 0 <= k < |lit| ==> tok[..|lit|][k] == At(sql, sidx + k);
    }
  }

  /** The position where the scan for the closing delimiter stops is FindClose's. */
  lemma FirstClose(sql: string, idx: nat)
    requires 2 <= idx <= |sql|
    requires forall m :: 2 <= m < idx ==> !ClosesAt(sql, m)
    requires idx < |sql| ==> ClosesAt(sql, idx)
    ensures FindClose(sql, 2) == idx
  {
  }

  /** A stretch without a comma holds no token. */
  lemma NoCommaNoTokens(s: string)
    requires forall m :: 0 <= m < |s| ==> s[m] != ','
    ensures Tokens(s) == []
  {
  }

  /** The first loop of ParseSqlComment: from position 2, stop at `*` followed by `/`, or at the NUL. */
  method ScanToClose(sql: string) returns (idx: nat)
    requires CString(sql)
    requires 2 <= |sql|
    ensures idx == FindClose(sql, 2)
  {
    idx := 2;
    while At(sql, idx) != '\0'
      invariant 2 <= idx <= |sql|
      invariant forall m :: 2 <= m < idx ==> !ClosesAt(sql, m)
      decreases |sql| - idx
    {
      if sql[idx] == '*' && At(sql, idx + 1) == '/' {
        break;
      }
      idx := idx + 1;
    }
    FirstClose(sql, idx);
  }

  /**
   * The second loop of ParseSqlComment: every comma ends a token that is
   * matched against "ur" and "idx" with strncmp; text after the last comma
   * before position `idx` is not looked at.
   */
  method ScanTokens(sql: string, idx: nat) returns (r: Result<SqlComment>)
    requires 2 <= idx <= |sql|
    ensures r == ApplyTokens(Tokens(sql[2..idx]), NoOptions)
  {
    var sc := NoOptions;
    var sidx := 2;
    var eidx := 2;
    ghost var goal := ScanFrom(sql, 2, 2, idx, NoOptions);
    ScanFromAppliesTokens(sql, 2, 2, idx, NoOptions);
    while eidx < idx
      invariant 2 <= sidx <= eidx <= idx
      invariant ScanFrom(sql, sidx, eidx, idx, sc) == goal
      decreases idx - eidx
    {
      if sql[eidx] != ',' {
        eidx := eidx + 1;
        continue;
      }
      if MatchesAt(sql, sidx, "ur") {
        sc := sc.(unsaferowFormat := true);
      } else if MatchesAt(sql, sidx, "idx") {
        sc := sc.(useIdxInPlain := true);
      } else {
        return Error(UnknownCommentParameter);
      }
      eidx := eidx + 1;
      sidx := eidx;
    }
    return Ok(sc);
  }

  /** ParseSqlComment (src/include/utils/sqlcomment.h:14-51). */
  method ParseSqlComment(sql: string) returns (r: Result<SqlComment>)
    requires CString(sql)
    ensures r == ParseSqlCommentSpec(sql)
  {
    if At(sql, 0) != '/' || At(sql, 1) != '*' {
      return Ok(NoOptions);
    }
    var idx := ScanToClose(sql);
    if At(sql, idx) != '*' {
      return Ok(NoOptions);
    }
    r := ScanTokens(sql, idx);
  }

  // ---------------------------------------------------------------------------
  // What the scanner promises

  /**
   * The options the tokens produce: the scan succeeds exactly when every token
   * is recognised, and then a flag is on exactly when it was on before or some
   * token asks for it. Flags therefore only ever go from false to true.
   */
  lemma {:induction false} ApplyTokensMeaning(toks: seq<string>, sc: SqlComment)
    ensures ApplyTokens(toks, sc).Ok? <==> forall t :: t in toks ==> Recognized(t)
    ensures ApplyTokens(toks, sc).Error? ==> ApplyTokens(toks, sc).report == UnknownCommentParameter
    ensures ApplyTokens(toks, sc).Ok? ==>
      && (ApplyTokens(toks, sc).value.unsaferowFormat <==>
            sc.unsaferowFormat || exists t :: t in toks && StartsWith(t, "ur"))
      && (ApplyTokens(toks, sc).value.useIdxInPlain <==>
            sc.useIdxInPlain || exists t :: t in toks && StartsWith(t, "idx"))
  {
    if toks != [] {
      var t := toks[0];
      assert forall u :: u in toks <==> u == t || u in toks[1..];
      assert StartsWith(t, "idx") ==> !StartsWith(t, "ur") by {
        if StartsWith(t, "idx") {
          assert t[0] == 'i';
        }
      }
      assert t in toks;
      match Step(t, sc)
      case Error(_) =>
        assert !Recognized(t);
      case Ok(next) =>
        ApplyTokensMeaning(toks[1..], next);
    }
  }

  /** Repeating or reordering tokens does not change the outcome: only the set of tokens matters. */
  lemma TokenOrderIrrelevant(toks1: seq<string>, toks2: seq<string>, sc: SqlComment)
    requires forall t :: t in toks1 <==> t in toks2
    ensures ApplyTokens(toks1, sc) == ApplyTokens(toks2, sc)
  {
    ApplyTokensMeaning(toks1, sc);
    ApplyTokensMeaning(toks2, sc);
  }

  /** Text after the last comma never forms a token, whatever follows. */
  lemma {:induction false} UnterminatedTailIgnored(body: string, tail: string)
    requires ',' !in tail
    ensures Tokens(body + tail) == Tokens(body)
    decreases |body|
  {
    var k := IndexOf(body, ',');
    if k == |body| {
      TailWithoutComma(body, tail);
    } else {
      CommaInBody(body, tail, k);
      UnterminatedTailIgnored(body[k + 1..], tail);
    }
  }

  /** A comma-free body followed by a comma-free tail holds no token. */
  lemma TailWithoutComma(body: string, tail: string)
    requires ',' !in tail
    requires IndexOf(body, ',') == |body|
    ensures Tokens(body + tail) == []
  {
    forall m | 0 <= m < |body + tail|
      ensures (body + tail)[m] != ','
    {
      if m >= |body| {
        assert (body + tail)[m] == tail[m - |body|];
      }
    }
    NoCommaNoTokens(body + tail);
  }

  /** The first comma of the body is the first comma of the body followed by a tail. */
  lemma CommaInBody(body: string, tail: string, k: nat)
    requires k < |body| && k == IndexOf(body, ',')
    ensures Tokens(body + tail) == [body[..k]] + Tokens(body[k + 1..] + tail)
  {
    TokensSplit(body + tail, k);
    assert (body + tail)[..k] == body[..k];
    assert (body + tail)[k + 1..] == body[k + 1..] + tail;
  }

  /** Input that does not start with the opener, or never closes the comment, gets no options. */
  lemma NoCommentNoOptions(sql: string)
    ensures (At(sql, 0) != '/' || At(sql, 1) != '*') ==> ParseSqlCommentSpec(sql) == Ok(NoOptions)
    ensures (forall m :: 2 <= m < |sql| ==> !ClosesAt(sql, m)) ==> ParseSqlCommentSpec(sql) == Ok(NoOptions)
  {
    if 2 <= |sql| && FindClose(sql, 2) < |sql| {
      assert ClosesAt(sql, FindClose(sql, 2));
    }
  }

  /**
   * In opener, body, closer, rest, with no closer inside the body, the
   * comment closes right after the body.
   */
  lemma CloseAfterBody(body: string, rest: string)
    requires forall m :: 0 <= m < |body| ==> !(body[m] == '*' && At(body + "*/", m + 1) == '/')
    ensures FindClose("/*" + body + "*/" + rest, 2) == 2 + |body|
  {
    var sql := "/*" + body + "*/" + rest;
    var close := 2 + |body|;
    assert ClosesAt(sql, close) by {
      assert sql[close] == '*' && sql[close + 1] == '/';
    }
    forall m | 2 <= m < close
      ensures !ClosesAt(sql, m)
    {
      assert sql[m] == body[m - 2];
      assert At(sql, m + 1) == At(body + "*/", m - 1);
    }
    FirstClose(sql, close);
  }

  /**
   * For a query of opener, body, closer, rest, with no closer inside the
   * body, the options are those of the body's tokens; the rest of the query
   * is not read.
   */
  lemma CommentBody(body: string, rest: string)
    requires forall m :: 0 <= m < |body| ==> !(body[m] == '*' && At(body + "*/", m + 1) == '/')
    ensures ParseSqlCommentSpec("/*" + body + "*/" + rest) == ApplyTokens(Tokens(body), NoOptions)
  {
    CloseAfterBody(body, rest);
    CommentParts(body, rest);
  }

  /** The opener and the body of opener, body, closer, rest, read back by position. */
  lemma CommentParts(body: string, rest: string)
    ensures var sql := "/*" + body + "*/" + rest;
      && 2 + |body| < |sql|
      && At(sql, 0) == '/' && At(sql, 1) == '*'
      && sql[2..2 + |body|] == body
  {
    var sql := "/*" + body + "*/" + rest;
    assert sql[2..2 + |body|] == body;
  }

  /**
   * Hence the result is decided by the tokens of the body: an error when one
   * is unknown, otherwise exactly the flags they ask for.
   */
  lemma CommentOptions(body: string, rest: string)
    requires forall m :: 0 <= m < |body| ==> !(body[m] == '*' && At(body + "*/", m + 1) == '/')
    ensures var r := ParseSqlCommentSpec("/*" + body + "*/" + rest);
      && (r.Ok? <==> forall t :: t in Tokens(body) ==> Recognized(t))
      && (r.Ok? ==>
            && (r.value.unsaferowFormat <==> exists t :: t in Tokens(body) && StartsWith(t, "ur"))
            && (r.value.useIdxInPlain <==> exists t :: t in Tokens(body) && StartsWith(t, "idx")))
  {
    CommentBody(body, rest);
    ApplyTokensMeaning(Tokens(body), NoOptions);
  }

  /** A final token without a trailing comma is ignored: `ur` alone asks for nothing. */
  lemma ExampleUnterminatedToken()
    ensures ParseSqlCommentSpec("/*ur*/") == Ok(NoOptions)
  {
    assert "/*ur*/" == "/*" + "ur" + "*/" + "";
    CommentBody("ur", "");
    assert IndexOf("ur", ',') == 2;
  }

  /** A comma-terminated `ur` switches on the UnsafeRow format; the query text after the comment is not read. */
  lemma ExampleUnsafeRow()
    ensures ParseSqlCommentSpec("/*ur,*/select 1") == Ok(SqlComment(true, false))
  {
    assert "/*ur,*/select 1" == "/*" + "ur," + "*/" + "select 1";
    CommentBody("ur,", "select 1");
    assert "ur," == "ur" + [','] + "";
    TokensCons("ur", "");
    assert StartsWith("ur", "ur");
  }

  /** A comma-free token followed by a comma comes first in the token list. */
  lemma TokensCons(tok: string, rest: string)
    requires forall m :: 0 <= m < |tok| ==> tok[m] != ','
    ensures Tokens(tok + [','] + rest) == [tok] + Tokens(rest)
  {
    var body := tok + [','] + rest;
    TokensSplit(body, |tok|);
    assert body[..|tok|] == tok;
    assert body[|tok| + 1..] == rest;
  }

  /** An empty token is unknown. */
  lemma ExampleEmptyToken()
    ensures ParseSqlCommentSpec("/*,*/") == Error(UnknownCommentParameter)
  {
    assert "/*,*/" == "/*" + "," + "*/" + "";
    CommentBody(",", "");
    assert "," == "" + [','] + "";
    TokensCons("", "");
  }
}
