// Decoding and validating the decisions of a model (internal/kernel/parse.go).  The JSON decoder
// is a parameter.
module Decisions {
  import opened Parse

  datatype Option<T> = None | Some(value: T)

  datatype Decision = Decision(action: string, symbol: string, confidence: real)

  datatype Failure = NoBlock | BadJson | EmptyList | InvalidAction(i: nat) | MissingSymbol(i: nat)

  datatype Result = Ok(actions: seq<Decision>) | Err(failure: Failure)

  const ValidActions := {"open_long", "open_short", "close_long", "close_short", "hold", "wait"}

  // ---------- full-width punctuation ----------

  function FixChar(c: char): char {
    match c
    case '\U{FF0C}' => ','
    case '\U{FF1A}' => ':'
    case '\U{FF1B}' => ';'
    case '\U{FF08}' => '('
    case '\U{FF09}' => ')'
    case '\U{FF5B}' => '{'
    case '\U{FF5D}' => '}'
    case '\U{FF3B}' => '['
    case '\U{FF3D}' => ']'
    case '\U{201C}' => '"'
    case '\U{201D}' => '"'
    case '\U{2018}' => '\''
    case '\U{2019}' => '\''
    case '\U{FF5E}' => '~'
    case _ => c
  }

  function FixFullWidth(s: string): string {
    seq(|s|, i requires 0 <= i < |s| => FixChar(s[i]))
  }

  /** Repairing twice is repairing once, pieces can be repaired one by one, and exactly the texts
      without full-width punctuation stay as they are. */
  lemma FixLaws(s: string, t: string)
    ensures FixFullWidth(FixFullWidth(s)) == FixFullWidth(s)
    ensures FixFullWidth(s + t) == FixFullWidth(s) + FixFullWidth(t)
    ensures FixFullWidth(s) == s <==> forall c :: c in s ==> FixChar(c) == c
  {
    assert forall i :: 0 <= i < |s| ==> FixFullWidth(s)[i] == FixChar(s[i]);
    assert FixFullWidth(s) == s ==> forall i :: 0 <= i < |s| ==> FixChar(s[i]) == s[i];
  }

  // What is repaired, and what becomes of it.
  const Wide :=
    "\U{FF0C}\U{FF1A}\U{FF1B}\U{FF08}\U{FF09}\U{FF5B}\U{FF5D}\U{FF3B}\U{FF3D}\U{201C}\U{201D}\U{2018}\U{2019}\U{FF5E}"
  const Narrow := ",:;(){}[]\"\"''~"

  /** Each of the fourteen wide characters becomes the one at its place among the narrow ones, and
      every other character stays, wherever it stands. */
  lemma FixedIs(s: string, i: nat)
    requires i < |s|
    ensures |Wide| == |Narrow| == 14 && |FixFullWidth(s)| == |s|
    ensures forall k :: 0 <= k < 14 && s[i] == Wide[k] ==> FixFullWidth(s)[i] == Narrow[k]
    ensures s[i] !in Wide ==> FixFullWidth(s)[i] == s[i]
  {
    if s[i] !in Wide {
      assert forall k :: 0 <= k < 14 ==> Wide[k] != s[i];
      assert s[i] != Wide[0] && s[i] != Wide[1] && s[i] != Wide[2] && s[i] != Wide[3] && s[i] != Wide[4]
        && s[i] != Wide[5] && s[i] != Wide[6] && s[i] != Wide[7] && s[i] != Wide[8] && s[i] != Wide[9]
        && s[i] != Wide[10] && s[i] != Wide[11] && s[i] != Wide[12] && s[i] != Wide[13];
    }
  }

  // ---------- white space ----------

  predicate Space(c: char) {
    || '\t' <= c <= '\r' || c == ' ' || c == '\U{0085}' || c == '\U{00A0}' || c == '\U{1680}'
    || '\U{2000}' <= c <= '\U{200A}' || c == '\U{2028}' || c == '\U{2029}' || c == '\U{202F}'
    || c == '\U{205F}' || c == '\U{3000}'
  }

  // The white space of Unicode.
  const Blanks := {
    '\t', '\n', '\U{000B}', '\U{000C}', '\r', ' ', '\U{0085}', '\U{00A0}', '\U{1680}', '\U{2000}', '\U{2001}',
    '\U{2002}', '\U{2003}', '\U{2004}', '\U{2005}', '\U{2006}', '\U{2007}', '\U{2008}', '\U{2009}', '\U{200A}',
    '\U{2028}', '\U{2029}', '\U{202F}', '\U{205F}', '\U{3000}'
  }

  lemma SpaceIs(c: char)
    ensures Space(c) <==> c in Blanks
  {
    assert (c as int) as char == c;
  }

  predicate Blank(s: string) { forall i :: 0 <= i < |s| ==> Space(s[i]) }

  function Trim(s: string): string
    decreases |s|
  {
    if s == "" then s
    else if Space(s[0]) then Trim(s[1..])
    else if Space(s[|s| - 1]) then Trim(s[..|s| - 1])
    else s
  }

  /** Trimming takes away all blank padding and nothing else. */
  lemma {:induction false} TrimPadding(left: string, s: string, right: string)
    requires Blank(left) && Blank(right)
    requires s != "" && !Space(s[0]) && !Space(s[|s| - 1])
    ensures Trim(left + s + right) == s
    decreases |left|
  {
    if left != "" {
      TrimPadding(left[1..], s, right);
      assert (left + s + right)[1..] == left[1..] + s + right;
    } else {
      TrimRight(s, right);
      assert left + s + right == s + right;
    }
  }

  lemma {:induction false} TrimRight(s: string, right: string)
    requires Blank(right) && s != "" && !Space(s[0]) && !Space(s[|s| - 1])
    ensures Trim(s + right) == s
    decreases |right|
  {
    if right != "" {
      var last := |right| - 1;
      TrimRight(s, right[..last]);
      assert (s + right)[..|s| + last] == s + right[..last];
    } else {
      assert s + right == s;
    }
  }

  // ---------- decoding and validating ----------

  function Payload(raw: string): string { Trim(FixFullWidth(Body(raw))) }

  // A list, or a single object taken as a list of one.
  function Decoded(payload: string, decodeList: string -> Option<seq<Decision>>, decodeOne: string -> Option<Decision>)
    : Option<seq<Decision>>
  {
    if decodeList(payload).Some? then decodeList(payload)
    else if decodeOne(payload).Some? then Some([decodeOne(payload).value])
    else None
  }

  predicate Passive(action: string) { action == "wait" || action == "hold" }

  predicate Acceptable(d: Decision) {
    d.action in ValidActions && (Passive(d.action) || !Blank(d.symbol))
  }

  // The failure is the one at the first decision that is not acceptable.
  predicate FirstFailure(ds: seq<Decision>, f: Failure) {
    && (f.InvalidAction? || f.MissingSymbol?) && f.i < |ds|
    && (forall k :: 0 <= k < f.i ==> Acceptable(ds[k]))
    && (f.InvalidAction? <==> ds[f.i].action !in ValidActions)
    && (f.MissingSymbol? ==> !Acceptable(ds[f.i]))
  }

  predicate Verdict(block: bool, decoded: Option<seq<Decision>>, r: Result) {
    match r
    case Ok(actions) =>
      block && decoded == Some(actions) && actions != [] && forall k :: 0 <= k < |actions| ==> Acceptable(actions[k])
    case Err(NoBlock) => !block
    case Err(BadJson) => block && decoded.None?
    case Err(EmptyList) => block && decoded == Some([])
    case Err(f) => block && decoded.Some? && FirstFailure(decoded.value, f)
  }

  method ParseDecision(raw: string, decodeList: string -> Option<seq<Decision>>, decodeOne: string -> Option<Decision>)
    returns (r: Result)
    ensures Verdict(Body(raw) != "", Decoded(Payload(raw), decodeList, decodeOne), r)
  {
    var body := ExtractDecisionBody(raw);
    if body == "" {
      return Err(NoBlock);
    }
    body := Trim(FixFullWidth(body));
    var actions := [];
    var list := decodeList(body);
    if list.Some? {
      actions := list.value;
    } else {
      var single := decodeOne(body);
      if single.None? {
        return Err(BadJson);
      }
      actions := [single.value];
    }
    if |actions| == 0 {
      return Err(EmptyList);
    }
    r := Validate(actions);
  }

  method Validate(actions: seq<Decision>) returns (r: Result)
    ensures if r.Ok? then r.actions == actions && forall k :: 0 <= k < |actions| ==> Acceptable(actions[k])
      else FirstFailure(actions, r.failure)
  {
    for i := 0 to |actions|
      invariant forall k :: 0 <= k < i ==> Acceptable(actions[k])
    {
      var a := actions[i];
      if a.action !in ValidActions {
        return Err(InvalidAction(i));
      }
      TrimBlank(a.symbol);
      if Trim(a.symbol) == "" && a.action != "wait" && a.action != "hold" {
        return Err(MissingSymbol(i));
      }
    }
    r := Ok(actions);
  }

  lemma {:induction false} TrimBlank(s: string)
    ensures Trim(s) == "" <==> Blank(s)
    decreases |s|
  {
    if s != "" {
      if Space(s[0]) {
        TrimBlank(s[1..]);
        assert forall i :: 0 <= i < |s| - 1 ==> s[1..][i] == s[i + 1];
        assert forall i :: 0 < i < |s| ==> s[1..][i - 1] == s[i];
      } else if Space(s[|s| - 1]) {
        assert !Space(s[..|s| - 1][0]);
        TrimBlank(s[..|s| - 1]);
      }
    }
  }

  /** An output has exactly one verdict, and it accepts exactly the non-empty lists of acceptable
      decisions. */
  lemma VerdictIsUnique(block: bool, decoded: Option<seq<Decision>>, r: Result, s: Result)
    requires Verdict(block, decoded, r) && Verdict(block, decoded, s)
    ensures r == s
    ensures r.Ok? <==>
      && block && decoded.Some? && decoded.value != []
      && forall k :: 0 <= k < |decoded.value| ==> Acceptable(decoded.value[k])
  {
  }

  /** From output to decisions: whatever surrounds the decision tags, and however the payload is
      padded or spelt with full-width punctuation, an acceptable list comes out as decoded. */
  lemma WrappedListComesOut(prefix: string, body: string, suffix: string, left: string, payload: string, right: string,
                            decodeList: string -> Option<seq<Decision>>, decodeOne: string -> Option<Decision>,
                            r: Result)
    requires !Contains(prefix, DecisionOpen) && !Contains(body, DecisionClose)
    requires FixFullWidth(body) == left + payload + right && Blank(left) && Blank(right)
    requires payload != "" && !Space(payload[0]) && !Space(payload[|payload| - 1])
    requires decodeList(payload).Some? && decodeList(payload).value != []
    requires forall k :: 0 <= k < |decodeList(payload).value| ==> Acceptable(decodeList(payload).value[k])
    requires var raw := prefix + DecisionOpen + body + DecisionClose + suffix;
      Verdict(Body(raw) != "", Decoded(Payload(raw), decodeList, decodeOne), r)
    ensures r == Ok(decodeList(payload).value)
  {
    DecisionTagRecoveredIff(prefix, body, suffix);
    TrimPadding(left, payload, right);
    assert |FixFullWidth(body)| == |body|;
  }

  /** A decision is acceptable if it is to wait or to hold, or if it opens or closes a position of a
      symbol with some character that is not white space. */
  lemma AcceptableIff(d: Decision)
    ensures Acceptable(d) <==>
      || d.action == "wait" || d.action == "hold"
      || ((d.action == "open_long" || d.action == "open_short" || d.action == "close_long" || d.action == "close_short")
          && exists c :: c in d.symbol && c !in Blanks)
  {
    forall c
      ensures Space(c) <==> c in Blanks
    {
      SpaceIs(c);
    }
    if !Blank(d.symbol) {
      var i :| 0 <= i < |d.symbol| && !Space(d.symbol[i]);
      assert d.symbol[i] in d.symbol;
    }
  }

  /** What a wrapped payload comes to: a single object counts as a list of one, an empty list and
      what cannot be decoded either way are errors. */
  lemma WrappedVerdict(prefix: string, body: string, suffix: string, left: string, payload: string, right: string,
                       decodeList: string -> Option<seq<Decision>>, decodeOne: string -> Option<Decision>, r: Result)
    requires !Contains(prefix, DecisionOpen) && !Contains(body, DecisionClose)
    requires FixFullWidth(body) == left + payload + right && Blank(left) && Blank(right)
    requires payload != "" && !Space(payload[0]) && !Space(payload[|payload| - 1])
    requires var raw := prefix + DecisionOpen + body + DecisionClose + suffix;
      Verdict(Body(raw) != "", Decoded(Payload(raw), decodeList, decodeOne), r)
    ensures var list, one := decodeList(payload), decodeOne(payload);
      && (list == Some([]) <==> r == Err(EmptyList)) && (list.None? && one.None? <==> r == Err(BadJson))
      && r != Err(NoBlock)
      && (list.None? && one.Some? ==>
            if Acceptable(one.value) then r == Ok([one.value])
            else r == Err(if one.value.action in ValidActions then MissingSymbol(0) else InvalidAction(0)))
  {
    DecisionTagRecoveredIff(prefix, body, suffix);
    TrimPadding(left, payload, right);
    assert |FixFullWidth(body)| == |body|;
    if decodeList(payload).None? && decodeOne(payload).Some? {
      VerdictOfOne(decodeOne(payload).value, r);
    }
  }

  lemma VerdictOfOne(d: Decision, r: Result)
    requires Verdict(true, Some([d]), r)
    ensures if Acceptable(d) then r == Ok([d])
      else r == Err(if d.action in ValidActions then MissingSymbol(0) else InvalidAction(0))
  {
    assert [d][0] == d;
  }
}
