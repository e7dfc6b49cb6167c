/**
 Content-based language inference for a fenced block without a tag
 (`inferLanguage` of the fixer script). The first rule that matches wins:
 JSON, then a shell prompt, then an HTTP request line, then SQL, then `text`.

 Each rule's regular expression is restated twice: once as the pattern says
 it (an existential over the place where the match ends), once as the scan
 the model computes with; lemmas tie the two together.
 */
module Language {
  import opened Text

  const HttpVerbs: seq<string> := ["GET", "POST", "PUT", "DELETE", "PATCH"]
  const SqlKeywords: seq<string> := ["SELECT", "INSERT", "UPDATE", "DELETE", "CREATE", "DROP", "ALTER"]

  /** Every answer `InferLanguage` can give. */
  const Languages: set<string> := {"json", "bash", "http", "sql", "text"}

  /** The `\w` class of a non-unicode regular expression. */
  predicate IsWordChar(c: char) {
    ('a' <= c <= 'z') || ('A' <= c <= 'Z') || ('0' <= c <= '9') || c == '_'
  }

  // ---------------------------------------------------------------------
  // The patterns, as the regular expressions state them
  // ---------------------------------------------------------------------

  /** `/^[{\[]/` */
  predicate JsonPattern(t: string) {
    |t| > 0 && (t[0] == '{' || t[0] == '[')
  }

  /** `/^\s*\$\s/` without the multiline flag: only the very start of the text counts. */
  predicate ShellPromptPattern(s: string) {
    exists k :: 0 <= k < |s| - 1 && AllSpace(s[..k]) && s[k] == '$' && IsSpace(s[k + 1])
  }

  /** One alternative of the request-line pattern: `verb\s+\/`, the verb up to case. */
  predicate VerbThenPath(t: string, verb: string) {
    && StartsWithIgnoreCase(t, verb)
    && exists k :: |verb| < k < |t| && AllSpace(t[|verb|..k]) && t[k] == '/'
  }

  /** `/^(GET|POST|PUT|DELETE|PATCH)\s+\//i` */
  predicate HttpPattern(t: string) {
    exists i :: 0 <= i < |HttpVerbs| && VerbThenPath(t, HttpVerbs[i])
  }

  /** One alternative of the SQL pattern: the keyword up to case, then `\b`. */
  predicate KeywordThenBoundary(t: string, keyword: string) {
    StartsWithIgnoreCase(t, keyword) && (|t| == |keyword| || !IsWordChar(t[|keyword|]))
  }

  /** `/^\s*(SELECT|INSERT|UPDATE|DELETE|CREATE|DROP|ALTER)\b/i` */
  predicate SqlPattern(t: string) {
    exists k, i :: 0 <= k <= |t| && AllSpace(t[..k]) && 0 <= i < |SqlKeywords|
                   && KeywordThenBoundary(t[k..], SqlKeywords[i])
  }

  // ---------------------------------------------------------------------
  // The scans the model computes with
  // ---------------------------------------------------------------------

  /** A text already stripped of its leading whitespace starts with `$` and one whitespace character. */
  predicate ShellPromptStart(t: string) {
    |t| >= 2 && t[0] == '$' && IsSpace(t[1])
  }

  predicate VerbPathStart(t: string, verb: string) {
    StartsWithIgnoreCase(t, verb) && |t| > |verb| && IsSpace(t[|verb|])
    && StartsWith(TrimStart(t[|verb|..]), "/")
  }

  /** Some verb alternative matches; the alternation backtracks into the next
      verb when one fails, so any matching alternative makes a match. */
  predicate RequestLineStart(t: string) {
    exists i :: 0 <= i < |HttpVerbs| && VerbPathStart(t, HttpVerbs[i])
  }

  predicate KeywordStart(t: string) {
    exists i :: 0 <= i < |SqlKeywords| && KeywordThenBoundary(t, SqlKeywords[i])
  }

  lemma ShellPromptScan(s: string)
    ensures ShellPromptPattern(s) <==> ShellPromptStart(TrimStart(s))
  {
    if ShellPromptPattern(s) {
      var k :| 0 <= k < |s| - 1 && AllSpace(s[..k]) && s[k] == '$' && IsSpace(s[k + 1]);
      ShellPromptAt(s, k);
    }
    if ShellPromptStart(TrimStart(s)) {
      var k := |Indent(s)|;
      assert s[k..] == TrimStart(s);
      assert s[k] == '$' && IsSpace(s[k + 1]);
      assert s[..k] == Indent(s);
    }
  }

  lemma ShellPromptAt(s: string, k: nat)
    requires k < |s| - 1 && AllSpace(s[..k]) && s[k] == '$' && IsSpace(s[k + 1])
    ensures ShellPromptStart(TrimStart(s))
  {
    assert s == s[..k] + s[k..];
    TrimStartOfPadded(s[..k], s[k..]);
  }

  lemma VerbScan(t: string, verb: string)
    ensures VerbThenPath(t, verb) <==> VerbPathStart(t, verb)
  {
    if VerbThenPath(t, verb) {
      var k :| |verb| < k < |t| && AllSpace(t[|verb|..k]) && t[k] == '/';
      VerbPathAt(t, verb, k);
    }
    if VerbPathStart(t, verb) {
      VerbPathWitness(t, verb);
    }
  }

  lemma VerbPathWitness(t: string, verb: string)
    requires VerbPathStart(t, verb)
    ensures VerbThenPath(t, verb)
  {
    var rest := t[|verb|..];
    var k := |verb| + |Indent(rest)|;
    assert rest[0] == t[|verb|];
    assert |Indent(rest)| > 0;
    assert t[k] == TrimStart(rest)[0];
    assert t[|verb|..k] == Indent(rest);
  }

  lemma VerbPathAt(t: string, verb: string, k: nat)
    requires StartsWithIgnoreCase(t, verb)
    requires |verb| < k < |t| && AllSpace(t[|verb|..k]) && t[k] == '/'
    ensures VerbPathStart(t, verb)
  {
    var rest := t[|verb|..];
    assert rest == t[|verb|..k] + t[k..];
    TrimStartOfPadded(t[|verb|..k], t[k..]);
    assert t[|verb|..k][0] == t[|verb|];
  }

  lemma RequestLineScan(t: string)
    ensures RequestLineStart(t) <==> HttpPattern(t)
  {
    forall i | 0 <= i < |HttpVerbs|
      ensures VerbPathStart(t, HttpVerbs[i]) <==> VerbThenPath(t, HttpVerbs[i])
    {
      VerbScan(t, HttpVerbs[i]);
    }
  }

  /** On a text without leading whitespace the `\s*` of the SQL pattern matches nothing. */
  lemma SqlScan(t: string)
    requires t == [] || !IsSpace(t[0])
    ensures SqlPattern(t) <==> KeywordStart(t)
  {
    if SqlPattern(t) {
      SqlPatternAtStart(t);
    }
    if KeywordStart(t) {
      var i :| 0 <= i < |SqlKeywords| && KeywordThenBoundary(t, SqlKeywords[i]);
      assert t[..0] == [] && t[0..] == t;
    }
  }

  lemma SqlPatternAtStart(t: string)
    requires t == [] || !IsSpace(t[0])
    requires SqlPattern(t)
    ensures exists i :: 0 <= i < |SqlKeywords| && KeywordThenBoundary(t, SqlKeywords[i])
  {
    var k, i :| 0 <= k <= |t| && AllSpace(t[..k]) && 0 <= i < |SqlKeywords|
                && KeywordThenBoundary(t[k..], SqlKeywords[i]);
    if k > 0 {
      SpacePrefixFirst(t, k);
      assert false;
    }
    assert t[0..] == t;
  }

  /** A non-empty whitespace prefix starts the text with whitespace. */
  lemma SpacePrefixFirst(t: string, k: nat)
    requires 0 < k <= |t| && AllSpace(t[..k])
    ensures IsSpace(t[0])
  {
    assert t[..k][0] == t[0];
  }

  // ---------------------------------------------------------------------
  // inferLanguage
  // ---------------------------------------------------------------------

  /** The language of a block body, from the scans; `InferLanguageFirstMatch`
      states it in terms of the patterns. Every rule but the shell rule looks at
      the text after its leading whitespace, and the shell rule's `\s*` skips
      that whitespace, so the scans all run on the trimmed text. */
  function InferLanguage(content: string): (r: string)
    ensures r in Languages
  {
    Classify(TrimStart(content))
  }

  function Classify(trimmed: string): string {
    if JsonPattern(trimmed) then "json"
    else if ShellPromptStart(trimmed) then "bash"
    else if RequestLineStart(trimmed) then "http"
    else if KeywordStart(trimmed) then "sql"
    else "text"
  }

  /** The answer is the first rule, in the order JSON, shell prompt, HTTP,
      SQL, whose pattern matches; `text` when none does. */
  lemma InferLanguageFirstMatch(content: string)
    ensures var r := InferLanguage(content);
            var t := TrimStart(content);
            && (r == "json" <==> JsonPattern(t))
            && (r == "bash" <==> !JsonPattern(t) && ShellPromptPattern(content))
            && (r == "http" <==> !JsonPattern(t) && !ShellPromptPattern(content) && HttpPattern(t))
            && (r == "sql" <==>
                  !JsonPattern(t) && !ShellPromptPattern(content) && !HttpPattern(t) && SqlPattern(t))
            && (r == "text" <==>
                  !JsonPattern(t) && !ShellPromptPattern(content) && !HttpPattern(t) && !SqlPattern(t))
  {
    var trimmed := TrimStart(content);
    ShellPromptScan(content);
    RequestLineScan(trimmed);
    SqlScan(trimmed);
  }

  /** Only the text after the leading whitespace decides the language. */
  lemma InferLanguageIgnoresIndent(content: string)
    ensures InferLanguage(content) == InferLanguage(TrimStart(content))
  {
    TrimStartIdempotent(content);
  }

  /** A `DELETE` request line also matches the SQL pattern, yet it is
      classified as HTTP because that rule is tried first. */
  lemma DeleteRequestIsHttp(gap: string, path: string)
    requires |gap| > 0 && AllSpace(gap)
    ensures var body := "DELETE" + gap + "/" + path;
            SqlPattern(body) && InferLanguage(body) == "http"
  {
    DeleteMatchesSql("DELETE" + gap + "/" + path);
    DeleteMatchesHttp(gap, path);
  }

  lemma DeleteMatchesSql(body: string)
    requires StartsWith(body, "DELETE") && |body| > 6 && !IsWordChar(body[6])
    ensures SqlPattern(body)
  {
    assert body[..0] == [] && body[0..] == body;
    assert KeywordThenBoundary(body, SqlKeywords[3]);
  }

  lemma DeleteMatchesHttp(gap: string, path: string)
    requires |gap| > 0 && AllSpace(gap)
    ensures InferLanguage("DELETE" + gap + "/" + path) == "http"
  {
    var body := "DELETE" + gap + "/" + path;
    var k := 6 + |gap|;
    assert body[6..k] == gap && body[k] == '/';
    assert StartsWithIgnoreCase(body, HttpVerbs[3]);
    RequestLineIsHttp(body, 3, k);
  }

  /** A verb, whitespace and a slash at the start make an HTTP block. */
  lemma RequestLineIsHttp(body: string, i: nat, k: nat)
    requires i < |HttpVerbs| && StartsWithIgnoreCase(body, HttpVerbs[i])
    requires |HttpVerbs[i]| < k < |body| && AllSpace(body[|HttpVerbs[i]|..k]) && body[k] == '/'
    ensures InferLanguage(body) == "http"
  {
    VerbPathAt(body, HttpVerbs[i], k);
    assert Upper(body[0]) == HttpVerbs[i][0];
    assert IndentLength(body) == 0;
  }

  /** A `$` prompt on a later line is not seen: the shell rule looks at the
      start of the block only. */
  lemma LaterPromptIsNotShell(first: string, rest: string)
    requires |first| > 0 && !IsSpace(first[0]) && first[0] != '$'
    ensures !ShellPromptPattern(first + "\n$ " + rest)
    ensures InferLanguage(first + "\n$ " + rest) != "bash"
  {
    var body := first + "\n$ " + rest;
    assert TrimStart(body) == body;
    ShellPromptScan(body);
  }

  /** A `$` and a blank after leading whitespace make a shell block, whatever follows. */
  lemma PromptIsBash(indent: string, gap: char, rest: string)
    requires AllSpace(indent) && IsSpace(gap)
    ensures InferLanguage(indent + ['$', gap] + rest) == "bash"
  {
    var t := ['$', gap] + rest;
    assert indent + ['$', gap] + rest == indent + t;
    TrimStartOfPadded(indent, t);
    InferLanguageIgnoresIndent(indent + t);
    assert TrimStart(t) == t;
  }

  /** `SELECT`, in any case and as a whole word, after the leading whitespace makes an SQL block. */
  lemma SelectIsSql(body: string)
    requires KeywordThenBoundary(TrimStart(body), "SELECT")
    ensures InferLanguage(body) == "sql"
  {
    var t := TrimStart(body);
    assert KeywordThenBoundary(t, SqlKeywords[0]);
    assert Upper(t[0]) == 'S';
    NoVerbWithInitial(t);
  }

  /** No request line starts with a letter no verb starts with. */
  lemma NoVerbWithInitial(t: string)
    requires |t| > 0
    requires forall i :: 0 <= i < |HttpVerbs| ==> HttpVerbs[i][0] != Upper(t[0])
    ensures !RequestLineStart(t)
  {
  }

  lemma EmptyIsText()
    ensures InferLanguage("") == "text"
  {
  }
}
