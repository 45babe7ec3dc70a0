// From a model's raw output to a list of decisions (internal/kernel/parse.go).  Strings are
// sequences of code points.
module Parse {

  // ---------- the first occurrence of a pattern ----------

  predicate OccursAt(s: string, pat: string, i: int) {
    0 <= i && i + |pat| <= |s| && s[i..i + |pat|] == pat
  }

  ghost predicate Contains(s: string, pat: string) { exists i :: OccursAt(s, pat, i) }

  /** Where the pattern occurs first, or -1. */
  function Index(s: string, pat: string): (r: int)
    ensures r >= -1
    ensures r == -1 ==> !Contains(s, pat)
    ensures r >= 0 ==> OccursAt(s, pat, r) && forall i :: OccursAt(s, pat, i) ==> r <= i
  {
    IndexFrom(s, pat, 0)
  }

  function IndexFrom(s: string, pat: string, i: nat): (r: int)
    ensures r == -1 || (r >= i && OccursAt(s, pat, r))
    ensures forall j :: OccursAt(s, pat, j) && j >= i ==> 0 <= r <= j
    decreases |s| - i
  {
    if i + |pat| > |s| then -1
    else if OccursAt(s, pat, i) then i
    else IndexFrom(s, pat, i + 1)
  }

  lemma CharAt(s: string, pat: string, i: int, k: nat)
    requires OccursAt(s, pat, i) && k < |pat|
    ensures s[i + k] == pat[k]
  {
    assert s[i..i + |pat|][k] == s[i + k];
  }

  // No proper prefix of the pattern is one of its suffixes: occurrences cannot overlap.
  ghost predicate Unbordered(pat: string) {
    pat != "" && forall k :: 0 < k < |pat| ==> pat[k..] != pat[..|pat| - k]
  }

  const DecisionOpen := "<decision>"
  const DecisionClose := "</decision>"
  const FenceOpen := "```json"
  const FenceClose := "```"
  const ReasoningOpen := "<reasoning>"
  const ReasoningClose := "</reasoning>"

  lemma UniqueHead(pat: string)
    requires pat != "" && forall k :: 0 < k < |pat| ==> pat[k] != pat[0]
    ensures Unbordered(pat)
  {
    forall k | 0 < k < |pat|
      ensures pat[k..] != pat[..|pat| - k]
    {
      assert pat[k..][0] == pat[k] && pat[..|pat| - k][0] == pat[0];
    }
  }

  lemma UniqueLast(pat: string)
    requires pat != "" && forall k :: 0 <= k < |pat| - 1 ==> pat[k] != pat[|pat| - 1]
    ensures Unbordered(pat)
  {
    forall k | 0 < k < |pat|
      ensures pat[k..] != pat[..|pat| - k]
    {
      assert pat[k..][|pat| - k - 1] == pat[|pat| - 1] && pat[..|pat| - k][|pat| - k - 1] == pat[|pat| - k - 1];
    }
  }

  lemma OverlapIsBorder(prefix: string, pat: string, rest: string, j: int)
    requires OccursAt(prefix + pat + rest, pat, j) && j < |prefix| < j + |pat|
    ensures !Unbordered(pat)
  {
    var s, k := prefix + pat + rest, |prefix| - j;
    assert pat[k..] == s[j..j + |pat|][k..] == s[|prefix|..j + |pat|];
    assert pat[..|pat| - k] == s[|prefix|..|prefix| + |pat| - k];
  }

  /** A pattern appended to a text that does not contain it is found just there. */
  lemma IndexAfter(prefix: string, pat: string, rest: string)
    requires Unbordered(pat) && !Contains(prefix, pat)
    ensures Index(prefix + pat + rest, pat) == |prefix|
  {
    var s := prefix + pat + rest;
    assert OccursAt(s, pat, |prefix|);
    var j := Index(s, pat);
    if j < |prefix| {
      if j + |pat| <= |prefix| {
        assert s[j..j + |pat|] == prefix[j..j + |pat|];
        assert OccursAt(prefix, pat, j);
      } else {
        OverlapIsBorder(prefix, pat, rest, j);
      }
    }
  }

  // ---------- the decision block ----------

  /** The text with reasoning blocks taken out, first opening and first closing tag at a time. */
  function Strip(body: string): string
    decreases |body|
  {
    if Stripped(body) then body else Strip(WithoutFirst(body))
  }

  // What follows the opening pattern at i, up to the closing pattern if there is one.
  function Between(raw: string, open: string, i: int, close: string): string
    requires OccursAt(raw, open, i)
  {
    var rest := raw[i + |open|..];
    var j := Index(rest, close);
    if j >= 0 then rest[..j] else rest
  }

  function Body(raw: string): string {
    var i, j := Index(raw, DecisionOpen), Index(raw, FenceOpen);
    if i >= 0 then Between(raw, DecisionOpen, i, DecisionClose)
    else if j >= 0 then Between(raw, FenceOpen, j, FenceClose)
    else Strip(raw)
  }

  method ExtractDecisionBody(raw: string) returns (body: string)
    ensures body == Body(raw)
  {
    var i := Index(raw, DecisionOpen);
    if i >= 0 {
      var rest := raw[i + |DecisionOpen|..];
      var j := Index(rest, DecisionClose);
      if j >= 0 {
        return rest[..j];
      }
      return rest;
    }
    i := Index(raw, FenceOpen);
    if i >= 0 {
      var rest := raw[i + |FenceOpen|..];
      var j := Index(rest, FenceClose);
      if j >= 0 {
        return rest[..j];
      }
      return rest;
    }
    body := StripReasoning(raw);
  }

  method StripReasoning(raw: string) returns (body: string)
    ensures body == Strip(raw)
  {
    body := raw;
    while true
      invariant Strip(body) == Strip(raw)
      decreases |body|
    {
      var s := Index(body, ReasoningOpen);
      var e := Index(body, ReasoningClose);
      if s >= 0 && e > s {
        body := body[..s] + body[e + |ReasoningClose|..];
        continue;
      }
      break;
    }
  }

  // No first opening tag before a first closing tag.
  predicate Stripped(body: string) {
    !(0 <= Index(body, ReasoningOpen) < Index(body, ReasoningClose))
  }

  function WithoutFirst(body: string): (r: string)
    requires !Stripped(body)
    ensures |r| < |body|
  {
    body[..Index(body, ReasoningOpen)] + body[Index(body, ReasoningClose) + |ReasoningClose|..]
  }

  /** Stripping ends with no first opening tag before a first closing tag, and changes exactly the
      texts that have them. */
  lemma {:induction false} StripEnds(body: string)
    ensures Stripped(Strip(body)) && |Strip(body)| <= |body|
    ensures Strip(body) == body <==> Stripped(body)
    decreases |body|
  {
    if !Stripped(body) {
      StripEnds(WithoutFirst(body));
    }
  }

  lemma TagsUnbordered()
    ensures Unbordered(DecisionOpen) && Unbordered(DecisionClose) && Unbordered(FenceOpen)
    ensures Unbordered(ReasoningOpen) && Unbordered(ReasoningClose)
  {
    UniqueHead(DecisionOpen);
    UniqueHead(DecisionClose);
    UniqueHead(ReasoningOpen);
    UniqueHead(ReasoningClose);
    UniqueLast(FenceOpen);
  }

  /** A body in decision tags is recovered exactly, whatever stands before and after it, if and
      only if it does not contain the closing tag. */
  lemma DecisionTagRecoveredIff(prefix: string, body: string, suffix: string)
    requires !Contains(prefix, DecisionOpen)
    ensures Body(prefix + DecisionOpen + body + DecisionClose + suffix) == body <==> !Contains(body, DecisionClose)
  {
    TagsUnbordered();
    Regroup(prefix, DecisionOpen, body, DecisionClose, suffix);
    BetweenAfter(prefix, DecisionOpen, body + DecisionClose + suffix, DecisionClose);
    CloseIndex(body, DecisionClose, suffix);
    BodyInTags(prefix + DecisionOpen + (body + DecisionClose + suffix));
  }

  lemma BodyInTags(raw: string)
    requires Index(raw, DecisionOpen) >= 0
    ensures Body(raw) == Between(raw, DecisionOpen, Index(raw, DecisionOpen), DecisionClose)
  {
  }

  lemma CloseIndex(body: string, close: string, suffix: string)
    requires Unbordered(close)
    ensures 0 <= Index(body + close + suffix, close) <= |body|
    ensures Index(body + close + suffix, close) == |body| <==> !Contains(body, close)
  {
    if Contains(body, close) {
      CutShort(body, close, close + suffix);
      assert body + close + suffix == body + (close + suffix);
    } else {
      IndexAfter(body, close, suffix);
    }
  }

  /** The closing tag may also be missing. */
  lemma OpenTagRecoveredIff(prefix: string, body: string)
    requires !Contains(prefix, DecisionOpen)
    ensures Body(prefix + DecisionOpen + body) == body <==> !Contains(body, DecisionClose)
  {
    TagsUnbordered();
    BetweenAfter(prefix, DecisionOpen, body, DecisionClose);
    BodyInTags(prefix + DecisionOpen + body);
    if Contains(body, DecisionClose) {
      CutShort(body, DecisionClose, "");
    }
  }

  lemma Regroup(a: string, b: string, c: string, d: string, e: string)
    ensures a + b + c + d + e == a + b + (c + d + e)
  {
  }

  lemma BetweenAfter(prefix: string, open: string, rest: string, close: string)
    requires Unbordered(open) && !Contains(prefix, open)
    ensures Index(prefix + open + rest, open) == |prefix|
    ensures Between(prefix + open + rest, open, |prefix|, close)
      == var j := Index(rest, close); if j >= 0 then rest[..j] else rest
  {
    IndexAfter(prefix, open, rest);
    assert (prefix + open + rest)[|prefix| + |open|..] == rest;
  }

  // A closing pattern inside the body ends it early.
  lemma CutShort(body: string, close: string, rest: string)
    requires close != "" && Contains(body, close)
    ensures 0 <= Index(body + rest, close) < |body|
    ensures 0 <= Index(body, close) < |body|
  {
    var i :| OccursAt(body, close, i);
    assert (body + rest)[i..i + |close|] == body[i..i + |close|];
    assert OccursAt(body + rest, close, i);
  }

  /** Without decision tags, a body in a fence is recovered exactly if and only if it holds no
      fence and does not end in a backquote (which would be taken for the fence's first). */
  lemma FenceRecoveredIff(prefix: string, body: string, suffix: string)
    requires !Contains(prefix, FenceOpen)
    requires !Contains(prefix + FenceOpen + body + FenceClose + suffix, DecisionOpen)
    ensures Body(prefix + FenceOpen + body + FenceClose + suffix) == body
      <==> !Contains(body, FenceClose) && (body == "" || body[|body| - 1] != '`')
  {
    TagsUnbordered();
    var closed := body + FenceClose + suffix;
    BetweenAfter(prefix, FenceOpen, closed, FenceClose);
    assert prefix + FenceOpen + body + FenceClose + suffix == prefix + FenceOpen + closed;
    FenceIndex(body, suffix);
  }

  lemma FenceIndex(body: string, suffix: string)
    ensures 0 <= Index(body + FenceClose + suffix, FenceClose) <= |body|
    ensures Index(body + FenceClose + suffix, FenceClose) == |body|
      <==> !Contains(body, FenceClose) && (body == "" || body[|body| - 1] != '`')
  {
    FenceIsFound(body, suffix);
    if Contains(body, FenceClose) {
      CutShort(body, FenceClose, FenceClose + suffix);
      assert body + FenceClose + suffix == body + (FenceClose + suffix);
    } else if body != "" && body[|body| - 1] == '`' {
      FenceGrows(body, suffix);
    } else {
      FenceIsFirst(body, suffix);
    }
  }

  lemma FenceIsFound(body: string, suffix: string)
    ensures 0 <= Index(body + FenceClose + suffix, FenceClose) <= |body|
  {
    assert OccursAt(body + FenceClose + suffix, FenceClose, |body|);
  }

  lemma FenceGrows(body: string, suffix: string)
    requires body != "" && body[|body| - 1] == '`'
    ensures 0 <= Index(body + FenceClose + suffix, FenceClose) < |body|
  {
    var s := body + FenceClose + suffix;
    assert s[|body| - 1..|body| + 2] == FenceClose;
    assert OccursAt(s, FenceClose, |body| - 1);
  }

  lemma FenceIsFirst(body: string, suffix: string)
    requires !Contains(body, FenceClose) && (body == "" || body[|body| - 1] != '`')
    ensures Index(body + FenceClose + suffix, FenceClose) == |body|
  {
    FenceIsFound(body, suffix);
    var i := Index(body + FenceClose + suffix, FenceClose);
    if i < |body| {
      InFront(body, FenceClose, suffix, i);
    }
  }

  lemma InFront(body: string, pat: string, rest: string, i: nat)
    requires OccursAt(body + pat + rest, pat, i) && i < |body|
    ensures Contains(body, pat) || body[|body| - 1] in pat
  {
    var s := body + pat + rest;
    if i + |pat| <= |body| {
      assert s[i..i + |pat|] == body[i..i + |pat|];
      assert OccursAt(body, pat, i);
    } else {
      CharAt(s, pat, i, |body| - 1 - i);
    }
  }

  // ---------- reasoning blocks ----------

  // Texts, each followed by a reasoning block, and a last text.
  function Blocks(pieces: seq<(string, string)>, tail: string): string {
    if pieces == [] then tail
    else pieces[0].0 + ReasoningOpen + pieces[0].1 + ReasoningClose + Blocks(pieces[1..], tail)
  }

  function Texts(pieces: seq<(string, string)>, tail: string): string {
    if pieces == [] then tail else pieces[0].0 + Texts(pieces[1..], tail)
  }

  ghost predicate WellFormed(pieces: seq<(string, string)>, tail: string) {
    && '<' !in tail
    && forall i :: 0 <= i < |pieces| ==> '<' !in pieces[i].0 && !Contains(pieces[i].1, ReasoningClose)
  }

  lemma NoTag(text: string, pat: string)
    requires '<' !in text && pat != "" && pat[0] == '<'
    ensures !Contains(text, pat) && Index(text, pat) == -1
  {
    if i :| OccursAt(text, pat, i) {
      CharAt(text, pat, i, 0);
    }
  }

  lemma Locate(text: string, tag: string, inner: string, i: nat)
    requires i < |text| + |tag| + |inner|
    ensures var p := text + tag + inner;
      && (i < |text| ==> p[i] in text)
      && (|text| <= i < |text| + |tag| ==> p[i] == tag[i - |text|])
  {
  }

  // The closing tag cannot begin before the inside of a block.
  lemma CloseIsInside(text: string, inner: string, i: nat)
    requires '<' !in text && OccursAt(text + ReasoningOpen + inner, ReasoningClose, i)
    ensures i >= |text| + |ReasoningOpen| && OccursAt(inner, ReasoningClose, i - |text| - |ReasoningOpen|)
  {
    var p, k, n := text + ReasoningOpen + inner, i - |text| - |ReasoningOpen|, |ReasoningClose|;
    CharAt(p, ReasoningClose, i, 0);
    CharAt(p, ReasoningClose, i, 1);
    Locate(text, ReasoningOpen, inner, i);
    Locate(text, ReasoningOpen, inner, i + 1);
    assert p[i] == '<' && p[i + 1] == '/';
    assert k >= 0;
    assert p[i..i + n] == inner[k..k + n];
  }

  // The block's closing tag is the first one.
  lemma NoEarlierClose(text: string, inner: string)
    requires '<' !in text && !Contains(inner, ReasoningClose)
    ensures !Contains(text + ReasoningOpen + inner, ReasoningClose)
  {
    if i :| OccursAt(text + ReasoningOpen + inner, ReasoningClose, i) {
      CloseIsInside(text, inner, i);
    }
  }

  lemma StripOne(text: string, inner: string, rest: string)
    requires '<' !in text && !Contains(inner, ReasoningClose)
    ensures Strip(text + ReasoningOpen + inner + ReasoningClose + rest) == Strip(text + rest)
  {
    TagsUnbordered();
    var raw := text + ReasoningOpen + inner + ReasoningClose + rest;
    var front := text + ReasoningOpen + inner;
    NoTag(text, ReasoningOpen);
    IndexAfter(text, ReasoningOpen, inner + ReasoningClose + rest);
    assert raw == text + ReasoningOpen + (inner + ReasoningClose + rest);
    NoEarlierClose(text, inner);
    IndexAfter(front, ReasoningClose, rest);
    assert raw == front + ReasoningClose + rest;
    assert raw[..|text|] == text && raw[|front| + |ReasoningClose|..] == rest;
  }

  lemma RegroupBlock(a: string, b: string, inner: string, rest: string)
    ensures a + (b + ReasoningOpen + inner + ReasoningClose + rest)
      == a + b + ReasoningOpen + inner + ReasoningClose + rest
  {
  }

  lemma {:induction false} StripAll(text: string, pieces: seq<(string, string)>, tail: string)
    requires '<' !in text && WellFormed(pieces, tail)
    ensures Strip(text + Blocks(pieces, tail)) == text + Texts(pieces, tail)
    decreases |pieces|
  {
    if pieces == [] {
      NoTag(text + tail, ReasoningOpen);
    } else {
      var first, inner, rest := text + pieces[0].0, pieces[0].1, Blocks(pieces[1..], tail);
      StripStep(text, pieces[0].0, inner, rest);
      TextsStep(text, pieces, tail);
      WellFormedTail(pieces, tail);
      StripAll(first, pieces[1..], tail);
    }
  }

  lemma StripStep(text: string, more: string, inner: string, rest: string)
    requires '<' !in text && '<' !in more && !Contains(inner, ReasoningClose)
    ensures Strip(text + (more + ReasoningOpen + inner + ReasoningClose + rest)) == Strip(text + more + rest)
  {
    StripOne(text + more, inner, rest);
    RegroupBlock(text, more, inner, rest);
  }

  lemma TextsStep(text: string, pieces: seq<(string, string)>, tail: string)
    requires pieces != []
    ensures text + Texts(pieces, tail) == text + pieces[0].0 + Texts(pieces[1..], tail)
  {
    assert text + (pieces[0].0 + Texts(pieces[1..], tail)) == text + pieces[0].0 + Texts(pieces[1..], tail);
  }

  lemma WellFormedTail(pieces: seq<(string, string)>, tail: string)
    requires WellFormed(pieces, tail) && pieces != []
    ensures WellFormed(pieces[1..], tail)
  {
    assert forall i :: 0 <= i < |pieces| - 1 ==> pieces[1..][i] == pieces[i + 1];
  }

  /** Reasoning blocks in text free of '<' are deleted exactly, whatever they hold short of their
      closing tag: nothing else of the output is lost. */
  lemma ReasoningDeletedExactly(pieces: seq<(string, string)>, tail: string)
    requires WellFormed(pieces, tail)
    requires !Contains(Blocks(pieces, tail), DecisionOpen) && !Contains(Blocks(pieces, tail), FenceOpen)
    ensures Body(Blocks(pieces, tail)) == Texts(pieces, tail)
  {
    StripAll("", pieces, tail);
    assert "" + Blocks(pieces, tail) == Blocks(pieces, tail) && "" + Texts(pieces, tail) == Texts(pieces, tail);
  }
}
