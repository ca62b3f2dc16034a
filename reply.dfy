/**
 * Turning one completion into the text the bot sends (main.ts `getReply`):
 * a failed completion becomes an inline error text, markdown link targets are
 * pointed at the forwarded message's deep link, and underscores are escaped.
 * The completion service's answer is an abstract input; `Complete` models the
 * adapter's checks on it.
 */
module Reply {
  import opened Wrappers
  import opened JsStrings

  // ----- the completion adapter -----

  /** What the completion service returned: a thrown error, or the contents of its choices (`None` for `null`). */
  datatype ApiAnswer = RequestFailed(message: string) | Choices(contents: seq<Option<string>>)

  /** A completion: trimmed text, or the message of the error it threw. */
  datatype Completion = Completed(text: string) | Failed(message: string)

  /**
   * `openAIPrompt` after the request: no choices and a `null` first content are
   * errors with fixed messages; otherwise the first content, trimmed.
   */
  function Complete(answer: ApiAnswer): (c: Completion)
    ensures answer.RequestFailed? ==> c == Failed(answer.message)
    ensures answer.Choices? && answer.contents == [] ==> c == Failed("No completion choices")
    ensures answer.Choices? && answer.contents != [] && answer.contents[0].None? ==>
              c == Failed("Completion choice content is null")
    ensures c.Completed? ==> answer.Choices? && answer.contents != [] && answer.contents[0].Some?
                             && c.text == Trim(answer.contents[0].value)
  {
    match answer
    case RequestFailed(e) => Failed(e)
    case Choices(cs) =>
      if cs == [] then Failed("No completion choices")
      else if cs[0].None? then Failed("Completion choice content is null")
      else Completed(Trim(cs[0].value))
  }

  // ----- the two link patterns -----

  const HttpsOpen: string := "(https://"
  const SourceTarget: string := "(source)"

  /** The index just past the run of white space that starts at `i`. */
  function SpaceEnd(s: string, i: nat): (k: nat)
    requires i <= |s|
    ensures i <= k <= |s|
    ensures forall j :: i <= j < k ==> IsSpace(s[j])
    ensures k == |s| || !IsSpace(s[k])
    decreases |s| - i
  {
    if i < |s| && IsSpace(s[i]) then SpaceEnd(s, i + 1) else i
  }

  /** The index of the first line terminator at or after `i`, or `|s|`. */
  function LineEnd(s: string, i: nat): (e: nat)
    requires i <= |s|
    ensures i <= e <= |s|
    ensures forall j :: i <= j < e ==> !IsLineTerminator(s[j])
    ensures e == |s| || IsLineTerminator(s[e])
    decreases |s| - i
  {
    if i < |s| && !IsLineTerminator(s[i]) then LineEnd(s, i + 1) else i
  }

  /** The last index in `[lo, hi)` holding `)`, if any. */
  function LastParen(s: string, lo: nat, hi: nat): (q: Option<nat>)
    requires lo <= hi <= |s|
    ensures q.Some? ==> lo <= q.value < hi && s[q.value] == ')'
                        && forall j :: q.value < j < hi ==> s[j] != ')'
    ensures q.None? ==> forall j :: lo <= j < hi ==> s[j] != ')'
    decreases hi - lo
  {
    if lo == hi then None else if s[hi - 1] == ')' then Some(hi - 1) else LastParen(s, lo, hi - 1)
  }

  /**
   * `s[..len]` is in the language of `\]\s*\(https:\/\/.+\)`, with the white
   * space run `s[1..k]`: `.` matches anything but a line terminator, `\s` matches
   * line terminators too.
   */
  ghost predicate IsHttpsLink(s: string, k: nat, len: nat)
  {
    && 1 <= k && k + 10 < len <= |s|
    && s[0] == ']'
    && (forall j :: 1 <= j < k ==> IsSpace(s[j]))
    && s[k..k + 9] == HttpsOpen
    && (forall j :: k + 9 <= j < len - 1 ==> !IsLineTerminator(s[j]))
    && s[len - 1] == ')'
  }

  /** `s` starts with `l` up to ASCII case (the `i` flag outside Unicode mode folds ASCII letters only). */
  predicate StartsIgnoringCase(s: string, l: string)
  {
    |l| <= |s| && forall j :: 0 <= j < |l| ==> (s[j] == l[j] || ('a' <= l[j] <= 'z' && s[j] as int == l[j] as int - 32))
  }

  /** `s[..k + 8]` is in the language of `\]\s*\(source\)` under the `i` flag, with the white space run `s[1..k]`. */
  ghost predicate IsSourceLink(s: string, k: nat)
  {
    && 1 <= k && k + 8 <= |s|
    && s[0] == ']'
    && (forall j :: 1 <= j < k ==> IsSpace(s[j]))
    && StartsIgnoringCase(s[k..], SourceTarget)
  }

  /** The length of the longest match of `\]\s*\(https:\/\/.+\)` at the start of `s`. */
  function HttpsLinkAt(s: string): (r: Option<nat>)
    ensures r.Some? ==> s != [] && IsHttpsLink(s, SpaceEnd(s, 1), r.value)
  {
    if s == [] || s[0] != ']' then None
    else
      var k := SpaceEnd(s, 1);
      if k + 9 <= |s| && s[k..k + 9] == HttpsOpen then
        var e := LineEnd(s, k + 9);
        if e == k + 9 then None
        else
          match LastParen(s, k + 10, e)
          case Some(q) => Some(q + 1)
          case None => None
      else None
  }

  /** The length of the match of `\]\s*\(source\)` (flag `i`) at the start of `s`. */
  function SourceLinkAt(s: string): (r: Option<nat>)
    ensures r.Some? ==> s != [] && IsSourceLink(s, SpaceEnd(s, 1)) && r.value == SpaceEnd(s, 1) + 8
  {
    if s == [] || s[0] != ']' then None
    else
      var k := SpaceEnd(s, 1);
      if StartsIgnoringCase(s[k..], SourceTarget) then Some(k + 8) else None
  }

  /** A white-space run that is followed by a non-space is the maximal one. */
  lemma {:induction false} RunBeforeNonSpace(s: string, i: nat, k: nat)
    requires 1 <= i <= k < |s| && !IsSpace(s[k])
    requires forall j :: i <= j < k ==> IsSpace(s[j])
    ensures SpaceEnd(s, i) == k
    decreases k - i
  {
    if i < k {
      RunBeforeNonSpace(s, i + 1, k);
    }
  }

  /** A stretch without line terminators lies before the line end. */
  lemma {:induction false} LineEndAtLeast(s: string, i: nat, m: nat)
    requires i <= m <= |s|
    requires forall j :: i <= j < m ==> !IsLineTerminator(s[j])
    ensures LineEnd(s, i) >= m
    decreases m - i
  {
    if i < m {
      LineEndAtLeast(s, i + 1, m);
    }
  }

  /** Every match of the `https` pattern is found, and the one found is the longest (the greedy `.+`). */
  lemma HttpsLinkAtComplete(s: string, k: nat, len: nat)
    requires IsHttpsLink(s, k, len)
    ensures HttpsLinkAt(s).Some? && HttpsLinkAt(s).value >= len
  {
    assert s[k] == HttpsOpen[0];
    RunBeforeNonSpace(s, 1, k);
    LineEndAtLeast(s, k + 9, len - 1);
  }

  /** Every match of the `(source)` pattern is found. */
  lemma SourceLinkAtComplete(s: string, k: nat)
    requires IsSourceLink(s, k)
    ensures SourceLinkAt(s) == Some(k + 8)
  {
    assert s[k..][0] == s[k];
    assert s[k] == '(';
    RunBeforeNonSpace(s, 1, k);
  }

  // ----- global replacement -----

  /** The two regular expressions `getReply` rewrites with. */
  datatype Pattern = HttpsLink | SourceLink

  function MatchAt(p: Pattern, s: string): (r: Option<nat>)
    ensures r.Some? ==> 0 < r.value <= |s| && s[0] == ']'
  {
    match p
    case HttpsLink => HttpsLinkAt(s)
    case SourceLink => SourceLinkAt(s)
  }

  /** `s.replaceAll(/p/g, rep)`: matches tried left to right, the scan resuming after each one replaced. */
  function ReplaceMatches(s: string, p: Pattern, rep: string): string
    decreases |s|
  {
    if s == [] then []
    else match MatchAt(p, s)
      case Some(len) => rep + ReplaceMatches(s[len..], p, rep)
      case None => [s[0]] + ReplaceMatches(s[1..], p, rep)
  }

  /** Text before the first `]` is copied through unchanged. */
  lemma {:induction false} ReplaceAfterPlainPrefix(a: string, b: string, p: Pattern, rep: string)
    requires ']' !in a
    ensures ReplaceMatches(a + b, p, rep) == a + ReplaceMatches(b, p, rep)
  {
    if a != [] {
      var s := a + b;
      assert s[0] == a[0] && s[0] != ']';
      assert MatchAt(p, s).None?;
      assert ReplaceMatches(s, p, rep) == [s[0]] + ReplaceMatches(s[1..], p, rep);
      assert s[1..] == a[1..] + b;
      ReplaceAfterPlainPrefix(a[1..], b, p, rep);
      calc {
        ReplaceMatches(s, p, rep);
        [a[0]] + (a[1..] + ReplaceMatches(b, p, rep));
        ([a[0]] + a[1..]) + ReplaceMatches(b, p, rep);
        { assert a == [a[0]] + a[1..]; }
        a + ReplaceMatches(b, p, rep);
      }
    } else {
      assert a + b == b;
    }
  }

  /** Text without a `]` contains no match and is left as it is. */
  lemma ReplaceWithoutBracket(s: string, p: Pattern, rep: string)
    requires ']' !in s
    ensures ReplaceMatches(s, p, rep) == s
  {
    ReplaceAfterPlainPrefix(s, [], p, rep);
    assert s + [] == s;
  }

  // ----- escaping -----

  /** `s.replaceAll('_', '\\_')`. */
  function EscapeUnderscores(s: string): string
  {
    ReplaceAll(s, "_", "\\_")
  }

  /** The inverse of `EscapeUnderscores`: each `\_` back to `_`. */
  function UnescapeUnderscores(s: string): string
  {
    if |s| >= 2 && s[0] == '\\' && s[1] == '_' then "_" + UnescapeUnderscores(s[2..])
    else if s == [] then []
    else [s[0]] + UnescapeUnderscores(s[1..])
  }

  lemma EscapeFirst(s: string)
    requires s != []
    ensures EscapeUnderscores(s) == (if s[0] == '_' then "\\_" else [s[0]]) + EscapeUnderscores(s[1..])
  {
    assert s[..1] == [s[0]];
  }

  /** Escaping distributes over concatenation. */
  lemma {:induction false} EscapeAppend(a: string, b: string)
    ensures EscapeUnderscores(a + b) == EscapeUnderscores(a) + EscapeUnderscores(b)
  {
    if a == [] {
      assert a + b == b;
    } else {
      EscapeFirst(a + b);
      EscapeFirst(a);
      assert (a + b)[1..] == a[1..] + b;
      EscapeAppend(a[1..], b);
    }
  }

  /** Each underscore grows the text by one backslash, and every underscore of the result is escaped. */
  lemma {:induction false} EscapeShape(s: string)
    ensures var r := EscapeUnderscores(s);
            && |r| == |s| + Count(s, '_')
            && (r != [] ==> r[0] != '_')
            && forall i :: 0 <= i < |r| && r[i] == '_' ==> 0 < i && r[i - 1] == '\\'
  {
    if s != [] {
      EscapeFirst(s);
      EscapeShape(s[1..]);
      var t := EscapeUnderscores(s[1..]);
      var r := EscapeUnderscores(s);
      if s[0] == '_' {
        forall i | 0 <= i < |r| && r[i] == '_' ensures 0 < i && r[i - 1] == '\\' {
          if i >= 2 {
            assert r[i] == t[i - 2];
          }
        }
      } else {
        forall i | 0 <= i < |r| && r[i] == '_' ensures 0 < i && r[i - 1] == '\\' {
          if i >= 1 {
            assert r[i] == t[i - 1];
          }
        }
      }
    }
  }

  /** Unescaping undoes escaping, so no text is lost. */
  lemma {:induction false} UnescapeEscape(s: string)
    ensures UnescapeUnderscores(EscapeUnderscores(s)) == s
  {
    if s != [] {
      EscapeFirst(s);
      var t := EscapeUnderscores(s[1..]);
      EscapeShape(s[1..]);
      UnescapeEscape(s[1..]);
      if s[0] == '_' {
        assert ("\\_" + t)[2..] == t;
      } else {
        assert ([s[0]] + t)[1..] == t;
      }
    }
  }

  /** Escaping is not idempotent: a second pass escapes the backslash-underscore again. */
  lemma EscapeNotIdempotent()
    ensures EscapeUnderscores(EscapeUnderscores("_")) != EscapeUnderscores("_")
  {
    EscapeShape("_");
    EscapeShape(EscapeUnderscores("_"));
    assert Count("_", '_') == 1;
    var e := EscapeUnderscores("_");
    assert e == "\\_" by { EscapeFirst("_"); }
    assert Count(e, '_') == 1;
  }

  // ----- getReply -----

  const ErrorPrefix: string := "Error generating reply:\n\n"

  /** The reply text before any rewriting: the completion, or the inline error text. */
  function RawReply(c: Completion): string
  {
    match c
    case Completed(t) => t
    case Failed(e) => ErrorPrefix + e
  }

  /** The replacement text for a matched link target. */
  function LinkTarget(url: string): string
  {
    "](" + url + ")"
  }

  /** Both link rewrites, the `https` one first. */
  function RewriteLinks(s: string, url: string): string
  {
    ReplaceMatches(ReplaceMatches(s, HttpsLink, LinkTarget(url)), SourceLink, LinkTarget(url))
  }

  /** `getReply` after its completion: error text, link rewrites when a deep link is known, escaping. */
  function GetReply(c: Completion, source: Option<string>): (r: string)
    ensures forall i :: 0 <= i < |r| && r[i] == '_' ==> 0 < i && r[i - 1] == '\\'
    ensures !Truthy(source) ==> UnescapeUnderscores(r) == RawReply(c)
    ensures Truthy(source) ==> UnescapeUnderscores(r) == RewriteLinks(RawReply(c), source.value)
    ensures c.Failed? ==> |r| >= |ErrorPrefix| && r[..|ErrorPrefix|] == ErrorPrefix
  {
    var raw := RawReply(c);
    var linked := if Truthy(source) then RewriteLinks(raw, source.value) else raw;
    EscapeShape(linked);
    UnescapeEscape(linked);
    FailedReplyPrefix(c, source);
    EscapeUnderscores(linked)
  }

  lemma FailedReplyPrefix(c: Completion, source: Option<string>)
    ensures c.Failed? ==>
              var raw := RawReply(c);
              var linked := if Truthy(source) then RewriteLinks(raw, source.value) else raw;
              |EscapeUnderscores(linked)| >= |ErrorPrefix|
              && EscapeUnderscores(linked)[..|ErrorPrefix|] == ErrorPrefix
  {
    if c.Completed? {
      return;
    }
    var e := c.message;
    var raw := ErrorPrefix + e;
    assert ']' !in ErrorPrefix;
    var linked := raw;
    if Truthy(source) {
      var url := LinkTarget(source.value);
      ReplaceAfterPlainPrefix(ErrorPrefix, e, HttpsLink, url);
      ReplaceAfterPlainPrefix(ErrorPrefix, ReplaceMatches(e, HttpsLink, url), SourceLink, url);
      linked := ErrorPrefix + RewriteLinks(e, source.value);
    }
    assert '_' !in ErrorPrefix;
    ReplaceAllNoMatch(ErrorPrefix);
    EscapeAppend(ErrorPrefix, linked[|ErrorPrefix|..]);
    assert linked == ErrorPrefix + linked[|ErrorPrefix|..];
  }

  lemma {:induction false} ReplaceAllNoMatch(s: string)
    requires '_' !in s
    ensures EscapeUnderscores(s) == s
  {
    if s != [] {
      EscapeFirst(s);
      ReplaceAllNoMatch(s[1..]);
    }
  }

  /** A text that is one match of a pattern as a whole is replaced as a whole. */
  lemma ReplaceWholeMatch(s: string, p: Pattern, rep: string)
    requires MatchAt(p, s) == Some(|s|)
    ensures ReplaceMatches(s, p, rep) == rep
  {
    assert s[|s|..] == [];
    assert rep + [] == rep;
  }

  /**
   * An inserted link target `](https://…)` is no `(source)` target, so the
   * second rewrite keeps it and goes on with the text after it.
   */
  lemma SourceKeepsTarget(url: string, b: string, rep: string)
    requires |url| >= 2 && url[0] == 'h' && ']' !in url
    ensures ReplaceMatches(LinkTarget(url) + b, SourceLink, rep) == LinkTarget(url) + ReplaceMatches(b, SourceLink, rep)
  {
    var t := LinkTarget(url);
    var s := t + b;
    TargetStartsNoSourceLink(url, b);
    ReplaceNoMatchStep(s, SourceLink, rep);
    var tail := TargetTail(url, b);
    ReplaceAfterPlainPrefix(tail, b, SourceLink, rep);
    assert [']'] + (tail + ReplaceMatches(b, SourceLink, rep)) == t + ReplaceMatches(b, SourceLink, rep);
  }

  /** Without a match at its start, the rewrite keeps the first character and goes on after it. */
  lemma ReplaceNoMatchStep(s: string, p: Pattern, rep: string)
    requires s != [] && MatchAt(p, s).None?
    ensures ReplaceMatches(s, p, rep) == [s[0]] + ReplaceMatches(s[1..], p, rep)
  {
  }

  /** The target after its `]` holds no further `]`. */
  lemma TargetTail(url: string, b: string) returns (tail: string)
    requires ']' !in url
    ensures LinkTarget(url) == [']'] + tail && ']' !in tail
    ensures (LinkTarget(url) + b)[0] == ']' && (LinkTarget(url) + b)[1..] == tail + b
  {
    tail := "(" + url + ")";
    assert LinkTarget(url) + b == [']'] + (tail + b);
  }

  /** After the `](` of such a target comes `h`, not the `s` of `source`. */
  lemma TargetStartsNoSourceLink(url: string, b: string)
    requires |url| >= 2 && url[0] == 'h'
    ensures SourceLinkAt(LinkTarget(url) + b).None?
  {
    var s := LinkTarget(url) + b;
    assert s[0] == ']' && s[1] == '(' && s[2] == 'h';
    RunBeforeNonSpace(s, 1, 1);
    assert s[1..][1] == 'h';
  }

  lemma WrongUrlMatches()
    ensures HttpsLinkAt("](https://wrong.url)") == Some(20)
  {
    var b := "](https://wrong.url)";
    WrongUrlShape();
    HttpsLinkAtComplete(b, 1, |b|);
  }

  lemma WrongUrlShape()
    ensures IsHttpsLink("](https://wrong.url)", 1, 20)
  {
    var b := "](https://wrong.url)";
    assert b[1..10] == HttpsOpen;
  }

  lemma ExamplePieces()
    ensures var url := "https://t.me/c/1/2";
            ']' !in "See [here" && |url| >= 2 && url[0] == 'h' && ']' !in url
  {
  }

  lemma ExampleJoined()
    ensures "See [here" + LinkTarget("https://t.me/c/1/2") == "See [here](https://t.me/c/1/2)"
  {
  }

  lemma ExampleNoUnderscore()
    ensures '_' !in "See [here](https://t.me/c/1/2)"
  {
  }

  /** A reply whose link points somewhere else is pointed at the deep link; nothing else changes. */
  lemma WrongLinkRewritten()
    ensures GetReply(Completed("See [here](https://wrong.url)"), Some("https://t.me/c/1/2"))
            == "See [here](https://t.me/c/1/2)"
  {
    var a, b, url := "See [here", "](https://wrong.url)", "https://t.me/c/1/2";
    assert a + b == "See [here](https://wrong.url)";
    var t := LinkTarget(url);
    ExamplePieces();
    ExampleJoined();
    ExampleNoUnderscore();
    WrongUrlMatches();
    ReplaceWholeMatch(b, HttpsLink, t);
    ReplaceAfterPlainPrefix(a, b, HttpsLink, t);
    SourceKeepsTarget(url, [], t);
    assert t + [] == t;
    ReplaceAfterPlainPrefix(a, t, SourceLink, t);
    ReplaceAllNoMatch(a + t);
  }

  /** The `(source)` placeholder is recognised in any letter case and replaced as a whole. */
  lemma SourceAnyCase(rep: string)
    ensures ReplaceMatches("](SoUrCe)", SourceLink, rep) == rep
  {
    var s := "](SoUrCe)";
    assert IsSourceLink(s, 1) by {
      assert s[1..] == "(SoUrCe)";
      assert StartsIgnoringCase(s[1..], SourceTarget);
    }
    SourceLinkAtComplete(s, 1);
    ReplaceWholeMatch(s, SourceLink, rep);
  }

  /** Underscores are escaped even when no deep link is known. */
  lemma BoldEscaped()
    ensures GetReply(Completed("_bold_"), None) == "\\_bold\\_"
  {
    var answer := "_bold_";
    var u, w := answer[..1], answer[1..5];
    assert answer == u + w + u;
    EscapeAppend(u + w, u);
    EscapeAppend(u, w);
    EscapeFirst(u);
    ReplaceAllNoMatch(w);
  }
}
