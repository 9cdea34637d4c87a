/** The text a join offer is relayed with: the client's session description
    followed by one attribute line for each candidate it trickled afterwards. */
module OfferText {

  /** What Go's `unicode.IsSpace` accepts. */
  predicate IsSpace(c: char) {
    c in {'\t', '\n', '\U{0B}', '\U{0C}', '\r', ' ', '\U{85}', '\U{A0}', '\U{1680}', '\U{2028}', '\U{2029}',
          '\U{202F}', '\U{205F}', '\U{3000}'}
    || '\U{2000}' <= c <= '\U{200A}'
  }

  /** The cut set that is trimmed from the end of the offer. */
  predicate IsLineSpace(c: char) { c == ' ' || c == '\t' || c == '\r' || c == '\n' }

  const CRLF: string := "\r\n"

  function TrimRight(s: string): string {
    if s != "" && IsLineSpace(s[|s| - 1]) then TrimRight(s[..|s| - 1]) else s
  }

  function TrimSpaceLeft(s: string): string {
    if s != "" && IsSpace(s[0]) then TrimSpaceLeft(s[1..]) else s
  }

  function TrimSpaceRight(s: string): string {
    if s != "" && IsSpace(s[|s| - 1]) then TrimSpaceRight(s[..|s| - 1]) else s
  }

  function TrimSpace(s: string): string { TrimSpaceRight(TrimSpaceLeft(s)) }

  /** Trimming takes space off both ends, as much of it as there is. */
  ghost predicate IsTrimmedFrom(t: string, s: string) {
    && (exists left, right :: s == left + t + right && AllSpace(left) && AllSpace(right))
    && (t != "" ==> !IsSpace(t[0]) && !IsSpace(t[|t| - 1]))
  }

  ghost predicate AllSpace(s: string) { forall c | c in s :: IsSpace(c) }

  lemma {:induction false} TrimLeftSplits(s: string) returns (left: string)
    ensures s == left + TrimSpaceLeft(s) && AllSpace(left)
    ensures TrimSpaceLeft(s) != "" ==> !IsSpace(TrimSpaceLeft(s)[0])
  {
    left := "";
    if s != "" && IsSpace(s[0]) {
      var rest := TrimLeftSplits(s[1..]);
      left := [s[0]] + rest;
      assert s == [s[0]] + s[1..];
    }
  }

  lemma {:induction false} TrimRightSplits(s: string) returns (right: string)
    ensures s == TrimSpaceRight(s) + right && AllSpace(right)
    ensures TrimSpaceRight(s) != "" ==> !IsSpace(TrimSpaceRight(s)[|TrimSpaceRight(s)| - 1]) && TrimSpaceRight(s)[0] == s[0]
  {
    right := "";
    if s != "" && IsSpace(s[|s| - 1]) {
      var rest := TrimRightSplits(s[..|s| - 1]);
      right := rest + [s[|s| - 1]];
      assert s == s[..|s| - 1] + [s[|s| - 1]];
    }
  }

  lemma TrimSpaceTrims(s: string)
    ensures IsTrimmedFrom(TrimSpace(s), s)
  {
    var left := TrimLeftSplits(s);
    var right := TrimRightSplits(TrimSpaceLeft(s));
    assert s == left + TrimSpace(s) + right;
  }

  /** An attribute as it appears on its line. */
  function Attribute(trimmed: string): string {
    if "a=" <= trimmed then trimmed else "a=" + trimmed
  }

  /** Prefixing adds two characters only where they are missing, and so changes nothing the second time. */
  lemma AttributePrefixes(trimmed: string)
    ensures var a, prefixed := Attribute(trimmed), |trimmed| >= 2 && trimmed[0] == 'a' && trimmed[1] == '=';
            && |a| >= 2 && a[..2] == "a=" && (if prefixed then a == trimmed else a[2..] == trimmed)
            && Attribute(a) == a
  {
    assert "a=" <= trimmed <==> |trimmed| >= 2 && trimmed[0] == 'a' && trimmed[1] == '=';
  }

  /** What one trickled candidate adds to the offer: nothing when it is blank. */
  function CandidateLine(candidate: string): string {
    var trimmed := TrimSpace(candidate);
    if trimmed == "" then "" else Attribute(trimmed) + CRLF
  }

  function CandidateLines(candidates: seq<string>): string {
    if candidates == [] then ""
    else CandidateLines(candidates[..|candidates| - 1]) + CandidateLine(candidates[|candidates| - 1])
  }

  function CompleteOfferSDP(sdp: string, candidates: seq<string>): string {
    TrimRight(sdp) + CRLF + CandidateLines(candidates)
  }

  /** The program's loop over the candidates and its string builder. */
  method Complete(sdp: string, candidates: seq<string>) returns (text: string)
    ensures text == CompleteOfferSDP(sdp, candidates)
  {
    text := TrimRight(sdp);
    text := text + CRLF;
    CompleteNone(sdp);
    for i := 0 to |candidates|
      invariant text == CompleteOfferSDP(sdp, candidates[..i])
    {
      CompleteOneMore(sdp, candidates, i);
      var candidate := TrimSpace(candidates[i]);
      if candidate == "" {
        continue;
      }
      text := WriteLine(text, candidate);
    }
    assert candidates[..|candidates|] == candidates;
  }

  method WriteLine(text: string, candidate: string) returns (longer: string)
    ensures longer == text + (Attribute(candidate) + CRLF)
  {
    var line := candidate;
    if !("a=" <= candidate) {
      line := "a=" + candidate;
    }
    longer := text + (line + CRLF);
  }

  lemma Associative(x: string, y: string, z: string)
    ensures (x + y) + z == x + (y + z)
  {}

  lemma CompleteNone(sdp: string)
    ensures CompleteOfferSDP(sdp, []) == TrimRight(sdp) + CRLF
  {
    var text := TrimRight(sdp) + CRLF;
    assert text + "" == text;
  }

  lemma CompleteSnoc(sdp: string, front: seq<string>, last: string)
    ensures CompleteOfferSDP(sdp, front + [last]) == CompleteOfferSDP(sdp, front) + CandidateLine(last)
  {
    var all := front + [last];
    assert all[..|all| - 1] == front;
    Associative(TrimRight(sdp) + CRLF, CandidateLines(front), CandidateLine(last));
  }

  lemma CompleteOneMore(sdp: string, candidates: seq<string>, i: nat)
    requires i < |candidates|
    ensures CompleteOfferSDP(sdp, candidates[..i + 1]) ==
            if TrimSpace(candidates[i]) == "" then CompleteOfferSDP(sdp, candidates[..i])
            else CompleteOfferSDP(sdp, candidates[..i]) + (Attribute(TrimSpace(candidates[i])) + CRLF)
  {
    assert candidates[..i + 1] == candidates[..i] + [candidates[i]];
    CompleteSnoc(sdp, candidates[..i], candidates[i]);
    var text := CompleteOfferSDP(sdp, candidates[..i]);
    assert text + "" == text;
  }

  // ----- completing an offer in stages -----

  lemma {:induction false} TrimRightEnds(s: string)
    ensures TrimRight(s) <= s
    ensures TrimRight(s) != "" ==> !IsLineSpace(TrimRight(s)[|TrimRight(s)| - 1])
  {
    if s != "" && IsLineSpace(s[|s| - 1]) {
      TrimRightEnds(s[..|s| - 1]);
    }
  }

  lemma {:induction false} TrimSpaceRightEnds(s: string)
    ensures TrimSpaceRight(s) != "" ==> !IsSpace(TrimSpaceRight(s)[|TrimSpaceRight(s)| - 1])
  {
    if s != "" && IsSpace(s[|s| - 1]) {
      TrimSpaceRightEnds(s[..|s| - 1]);
    }
  }

  lemma TrimRightDropsBreak(s: string)
    ensures TrimRight(s + CRLF) == TrimRight(s)
  {
    assert (s + CRLF)[..|s + CRLF| - 1] == s + "\r";
    assert (s + "\r")[..|s + "\r"| - 1] == s;
  }

  lemma TrimRightDropsBreakAfter(text: string)
    requires text != "" && !IsLineSpace(text[|text| - 1])
    ensures TrimRight(text + CRLF) == text
  {
    TrimRightDropsBreak(text);
  }

  lemma AttributeEnds(candidate: string)
    requires TrimSpace(candidate) != ""
    ensures var line := Attribute(TrimSpace(candidate)); line != "" && !IsLineSpace(line[|line| - 1])
  {
    TrimSpaceRightEnds(TrimSpaceLeft(candidate));
    var trimmed := TrimSpace(candidate);
    assert !IsSpace(trimmed[|trimmed| - 1]);
  }

  /** Every text that `CompleteOfferSDP` makes is a text without trailing line space, then a break. */
  lemma {:induction false} CompletedIsStable(sdp: string, candidates: seq<string>)
    ensures TrimRight(CompleteOfferSDP(sdp, candidates)) + CRLF == CompleteOfferSDP(sdp, candidates)
  {
    if candidates == [] {
      TrimRightEnds(sdp);
      TrimRightDropsBreak(TrimRight(sdp));
      CompleteNone(sdp);
    } else {
      var n := |candidates| - 1;
      CompleteOneMore(sdp, candidates, n);
      assert candidates[..n + 1] == candidates;
      if TrimSpace(candidates[n]) == "" {
        CompletedIsStable(sdp, candidates[..n]);
      } else {
        AttributeEnds(candidates[n]);
        BreakAfter(CompleteOfferSDP(sdp, candidates[..n]), Attribute(TrimSpace(candidates[n])));
      }
    }
  }

  lemma BreakAfter(before: string, line: string)
    requires line != "" && !IsLineSpace(line[|line| - 1])
    ensures TrimRight(before + (line + CRLF)) + CRLF == before + (line + CRLF)
  {
    Associative(before, line, CRLF);
    var text := before + line;
    assert text[|text| - 1] == line[|line| - 1];
    TrimRightDropsBreakAfter(text);
  }

  lemma CandidateLinesSnoc(front: seq<string>, last: string)
    ensures CandidateLines(front + [last]) == CandidateLines(front) + CandidateLine(last)
  {
    assert (front + [last])[..|front|] == front;
  }

  lemma {:induction false} CandidateLinesConcat(a: seq<string>, b: seq<string>)
    ensures CandidateLines(a + b) == CandidateLines(a) + CandidateLines(b)
  {
    if b == [] {
      assert a + b == a;
      AppendNothing(CandidateLines(a));
    } else {
      var front, last := b[..|b| - 1], b[|b| - 1];
      CandidateLinesConcat(a, front);
      assert b == front + [last];
      SnocConcat(a, front, last);
    }
  }

  lemma SnocConcat(a: seq<string>, front: seq<string>, last: string)
    requires CandidateLines(a + front) == CandidateLines(a) + CandidateLines(front)
    ensures CandidateLines(a + (front + [last])) == CandidateLines(a) + CandidateLines(front + [last])
  {
    assert a + (front + [last]) == (a + front) + [last];
    CandidateLinesSnoc(a + front, last);
    CandidateLinesSnoc(front, last);
    Associative(CandidateLines(a), CandidateLines(front), CandidateLine(last));
  }

  lemma AppendNothing(x: string)
    ensures x + "" == x
  {}

  /** Completing an offer in stages equals completing it at once. */
  lemma CompleteInStages(sdp: string, a: seq<string>, b: seq<string>)
    ensures CompleteOfferSDP(CompleteOfferSDP(sdp, a), b) == CompleteOfferSDP(sdp, a + b)
  {
    CompletedIsStable(sdp, a);
    CandidateLinesConcat(a, b);
  }

  // ----- the lines of the completed offer -----

  /** A record ends with CRLF, or with a bare newline as parsers are to accept (section 5 of RFC 8866). */
  ghost predicate BreakAt(t: string, i: int) { 0 <= i < |t| && t[i] == '\n' }

  ghost predicate HasBreak(t: string) { exists i :: BreakAt(t, i) }

  /** The record that a newline ends: one carriage return before it belongs to the break. */
  function Chomped(s: string): string {
    if s != "" && s[|s| - 1] == '\r' then s[..|s| - 1] else s
  }

  /** Where the first newline of `t` is. */
  ghost function FirstBreak(t: string): (i: nat)
    requires HasBreak(t)
    ensures BreakAt(t, i)
    ensures forall j | BreakAt(t, j) :: i <= j
  {
    FirstBreakFrom(t, 0)
  }

  ghost function FirstBreakFrom(t: string, from: nat): (i: nat)
    requires exists j :: from <= j && BreakAt(t, j)
    ensures BreakAt(t, i) && from <= i
    ensures forall j | from <= j && BreakAt(t, j) :: i <= j
    decreases |t| - from
  {
    if BreakAt(t, from) then from else FirstBreakFrom(t, from + 1)
  }

  /** The records of a session description. */
  ghost function Records(t: string): seq<string>
    decreases |t|
  {
    if !HasBreak(t) then [] else
      var i := FirstBreak(t);
      [Chomped(t[..i])] + Records(t[i + 1..])
  }

  /** The attributes that the candidates stand for, one for each that is not blank. */
  function Attributes(candidates: seq<string>): seq<string> {
    if candidates == [] then [] else
      var front := Attributes(candidates[..|candidates| - 1]);
      var trimmed := TrimSpace(candidates[|candidates| - 1]);
      if trimmed == "" then front else front + [Attribute(trimmed)]
  }

  /** No candidate carries a line break of its own once it is trimmed. */
  ghost predicate Unbroken(candidates: seq<string>) {
    forall c | c in candidates :: !HasBreak(TrimSpace(c))
  }

  /** A break inside a text that ends in a break is the same break of any text it starts. */
  lemma FirstBreakOfPrefix(head: string, q: string)
    requires HasBreak(head)
    ensures HasBreak(head + q) && FirstBreak(head + q) == FirstBreak(head)
  {
    var i := FirstBreak(head);
    assert BreakAt(head + q, i);
    var k := FirstBreak(head + q);
    assert BreakAt(head, k);
  }

  /** The first record of a text that holds a break, whatever follows it. */
  lemma {:induction false} FirstRecord(head: string, q: string, i: nat)
    requires HasBreak(head) && i == FirstBreak(head)
    ensures i < |head|
    ensures Records(head) == [Chomped(head[..i])] + Records(head[i + 1..])
    ensures Records(head + q) == [Chomped(head[..i])] + Records(head[i + 1..] + q)
  {
    FirstBreakOfPrefix(head, q);
    assert (head + q)[..i] == head[..i];
    assert (head + q)[i + 1..] == head[i + 1..] + q;
  }

  lemma {:induction false} RecordsConcat(head: string, q: string)
    requires head == "" || BreakAt(head, |head| - 1)
    ensures Records(head + q) == Records(head) + Records(q)
    decreases |head|
  {
    if head == "" {
      assert head + q == q;
      assert !HasBreak(head);
    } else {
      var i := FirstBreak(head);
      var rest := head[i + 1..];
      FirstRecord(head, q, i);
      assert rest != "" ==> BreakAt(rest, |rest| - 1);
      RecordsConcat(rest, q);
      Prepend(Chomped(head[..i]), Records(rest), Records(q));
    }
  }

  lemma Prepend(first: string, xs: seq<string>, ys: seq<string>)
    ensures [first] + (xs + ys) == ([first] + xs) + ys
  {}

  /** A line with no break inside it is one record, and a line with one is more than one. */
  lemma RecordsOfLine(line: string)
    ensures !HasBreak(line) ==> Records(line + CRLF) == [line]
    ensures HasBreak(line) ==> |Records(line + CRLF)| >= 2
  {
    var text := line + CRLF;
    assert BreakAt(text, |line| + 1);
    if HasBreak(line) {
      FirstBreakOfPrefix(line, CRLF);
      var rest := text[FirstBreak(text) + 1..];
      assert BreakAt(rest, |rest| - 1);
    } else {
      var i := FirstBreak(text);
      assert i < |line| ==> BreakAt(line, i);
      assert i == |line| + 1;
      assert text[i + 1..] == "" && text[..i] == line + "\r";
      assert Chomped(line + "\r") == line;
      assert !HasBreak("");
    }
  }

  lemma AttributeBreaks(trimmed: string)
    requires trimmed != ""
    ensures HasBreak(Attribute(trimmed)) <==> HasBreak(trimmed)
  {
    var line := Attribute(trimmed);
    if HasBreak(trimmed) && line != trimmed {
      var i :| BreakAt(trimmed, i);
      assert BreakAt(line, i + 2);
    }
    if HasBreak(line) && line != trimmed {
      var i :| BreakAt(line, i);
      assert line[0] == 'a' && line[1] == '=';
      assert BreakAt(trimmed, i - 2);
    }
  }

  lemma RecordsOfOneMore(sdp: string, candidates: seq<string>, i: nat)
    requires i < |candidates|
    requires TrimSpace(candidates[i]) != ""
    ensures Records(CompleteOfferSDP(sdp, candidates[..i + 1])) ==
            Records(CompleteOfferSDP(sdp, candidates[..i])) + Records(Attribute(TrimSpace(candidates[i])) + CRLF)
  {
    CompleteOneMore(sdp, candidates, i);
    var before := CompleteOfferSDP(sdp, candidates[..i]);
    CompletedIsStable(sdp, candidates[..i]);
    assert BreakAt(before, |before| - 1);
    RecordsConcat(before, Attribute(TrimSpace(candidates[i])) + CRLF);
  }

  lemma RecordsOfAttribute(candidate: string)
    requires TrimSpace(candidate) != ""
    ensures var line := Attribute(TrimSpace(candidate));
            && (!HasBreak(TrimSpace(candidate)) ==> Records(line + CRLF) == [line])
            && (HasBreak(TrimSpace(candidate)) ==> |Records(line + CRLF)| >= 2)
  {
    AttributeBreaks(TrimSpace(candidate));
    RecordsOfLine(Attribute(TrimSpace(candidate)));
  }

  lemma AttributesOneMore(candidates: seq<string>, i: nat)
    requires i < |candidates|
    ensures Attributes(candidates[..i + 1]) ==
            Attributes(candidates[..i]) +
            if TrimSpace(candidates[i]) == "" then [] else [Attribute(TrimSpace(candidates[i]))]
  {
    assert candidates[..i + 1][..i] == candidates[..i];
  }

  lemma UnbrokenOneMore(candidates: seq<string>, i: nat)
    requires i < |candidates|
    ensures Unbroken(candidates[..i + 1]) <==> Unbroken(candidates[..i]) && !HasBreak(TrimSpace(candidates[i]))
  {
    assert candidates[..i + 1] == candidates[..i] + [candidates[i]];
  }

  /** With no candidate broken, the records are the offer's own and the attributes; otherwise there are more. */
  ghost predicate RecordsAre(sdp: string, candidates: seq<string>) {
    var now := Records(CompleteOfferSDP(sdp, candidates));
    var own, attributes := Records(TrimRight(sdp) + CRLF), Attributes(candidates);
    if Unbroken(candidates) then now == own + attributes else |now| > |own| + |attributes|
  }

  lemma RecordsStart(sdp: string)
    ensures RecordsAre(sdp, [])
  {
    CompleteNone(sdp);
    var own := Records(TrimRight(sdp) + CRLF);
    assert own + [] == own;
  }

  lemma {:induction false} RecordsAfterBlank(sdp: string, candidates: seq<string>, i: nat)
    requires i < |candidates| && TrimSpace(candidates[i]) == "" && RecordsAre(sdp, candidates[..i])
    ensures RecordsAre(sdp, candidates[..i + 1])
  {
    CompleteOneMore(sdp, candidates, i);
    AttributesOneMore(candidates, i);
    UnbrokenOneMore(candidates, i);
    assert !HasBreak(TrimSpace(candidates[i]));
    assert Attributes(candidates[..i]) + [] == Attributes(candidates[..i]);
  }

  lemma {:induction false} RecordsAfterCandidate(sdp: string, candidates: seq<string>, i: nat)
    requires i < |candidates| && TrimSpace(candidates[i]) != "" && RecordsAre(sdp, candidates[..i])
    ensures RecordsAre(sdp, candidates[..i + 1])
  {
    RecordsOfOneMore(sdp, candidates, i);
    RecordsOfAttribute(candidates[i]);
    AttributesOneMore(candidates, i);
    UnbrokenOneMore(candidates, i);
    RecordsGrow(Records(TrimRight(sdp) + CRLF), Attributes(candidates[..i]), Attribute(TrimSpace(candidates[i])));
  }

  lemma RecordsGrow(own: seq<string>, attributes: seq<string>, line: string)
    ensures own + attributes + [line] == own + (attributes + [line])
  {}

  lemma {:induction false} RecordsOfCandidates(sdp: string, candidates: seq<string>, i: nat)
    requires i <= |candidates|
    ensures RecordsAre(sdp, candidates[..i])
  {
    if i == 0 {
      RecordsStart(sdp);
      assert candidates[..0] == [];
    } else {
      RecordsOfCandidates(sdp, candidates, i - 1);
      if TrimSpace(candidates[i - 1]) == "" {
        RecordsAfterBlank(sdp, candidates, i - 1);
      } else {
        RecordsAfterCandidate(sdp, candidates, i - 1);
      }
    }
  }

  /** The completed offer keeps the offer's own records and adds exactly one attribute record for
      each candidate that is not blank, in order, if and only if no candidate holds a newline. */
  lemma {:induction false} OneRecordPerCandidate(sdp: string, candidates: seq<string>)
    ensures Records(CompleteOfferSDP(sdp, candidates)) == Records(TrimRight(sdp) + CRLF) + Attributes(candidates)
            <==> Unbroken(candidates)
    ensures forall a | a in Attributes(candidates) :: "a=" <= a
  {
    RecordsOfCandidates(sdp, candidates, |candidates|);
    assert candidates[..|candidates|] == candidates;
    AttributesArePrefixed(candidates);
  }

  lemma {:induction false} AttributesArePrefixed(candidates: seq<string>)
    ensures forall a | a in Attributes(candidates) :: "a=" <= a
  {
    if candidates != [] {
      AttributesArePrefixed(candidates[..|candidates| - 1]);
    }
  }
}
