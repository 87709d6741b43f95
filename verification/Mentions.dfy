/** Mentions in message texts: parsing placeholders into UTF-16 ranges (internal/app/content.go) and
    printing ranges as names (internal/output/mentions.go). Texts are sequences of Unicode scalar values;
    positions count them where the program counts bytes. */
module Mentions {
  import opened Wrappers
  import opened Seqs
  import opened Recipients

  const OBJECT_REPLACEMENT: char := '\U{FFFC}'
  const TWO_TO_THE_32 := 0x1_0000_0000

  // ----- UTF-16 -----

  /** The number of UTF-16 code units of a scalar value. */
  function RuneLen(c: char): nat {
    if c as int < 0x1_0000 then 1 else 2
  }

  function Units(s: string): nat {
    if s == "" then 0 else Units(s[..|s| - 1]) + RuneLen(s[|s| - 1])
  }

  lemma {:induction false} UnitsAppend(a: string, b: string)
    ensures Units(a + b) == Units(a) + Units(b)
  {
    if b == "" {
      assert a + b == a;
    } else {
      assert (a + b)[..|a + b| - 1] == a + b[..|b| - 1];
      UnitsAppend(a, b[..|b| - 1]);
    }
  }

  lemma {:induction false} UnitsLength(s: string)
    ensures Units(s) >= |s|
  {
    if s != "" { UnitsLength(s[..|s| - 1]); }
  }

  /** The code units of a scalar value: itself, or a surrogate pair (section 2.1 of RFC 2781). */
  function Encoded(c: char): seq<nat> {
    var n := c as int;
    if n < 0x1_0000 then [n] else [0xD800 + (n - 0x1_0000) / 0x400, 0xDC00 + (n - 0x1_0000) % 0x400]
  }

  /** A text in UTF-16. */
  function Utf16(s: string): seq<nat> {
    if s == "" then [] else Utf16(s[..|s| - 1]) + Encoded(s[|s| - 1])
  }

  /** The text that code units encode, if they do (section 2.2 of RFC 2781). */
  function Decoded(units: seq<nat>): Option<string> {
    if units == [] then Some("")
    else if 0xD800 <= units[0] < 0xDC00 then
      if |units| == 1 || !(0xDC00 <= units[1] < 0xE000) then None
      else
        var c, rest := (0x1_0000 + (units[0] - 0xD800) * 0x400 + (units[1] - 0xDC00)) as char, Decoded(units[2..]);
        if rest.None? then None else Some([c] + rest.value)
    else if 0xDC00 <= units[0] < 0xE000 || units[0] >= 0x1_0000 then None
    else
      var rest := Decoded(units[1..]);
      if rest.None? then None else Some([units[0] as char] + rest.value)
  }

  lemma {:induction false} Utf16Append(a: string, b: string)
    ensures Utf16(a + b) == Utf16(a) + Utf16(b)
  {
    if b == "" {
      assert a + b == a;
    } else {
      assert (a + b)[..|a + b| - 1] == a + b[..|b| - 1];
      Utf16Append(a, b[..|b| - 1]);
    }
  }

  lemma DecodedFirst(c: char, rest: seq<nat>)
    ensures Decoded(Encoded(c) + rest) == var tail := Decoded(rest); if tail.None? then None else Some([c] + tail.value)
  {
    var n := c as int;
    if n < 0x1_0000 {
      assert (Encoded(c) + rest)[1..] == rest;
    } else {
      assert (Encoded(c) + rest)[2..] == rest;
      assert 0x1_0000 + (n - 0x1_0000) / 0x400 * 0x400 + (n - 0x1_0000) % 0x400 == n;
    }
  }

  /** Decoding gives the text back, and the number of code units is as computed. */
  lemma {:induction false} Utf16Decodes(s: string)
    ensures Decoded(Utf16(s)) == Some(s) && |Utf16(s)| == Units(s)
    decreases |s|
  {
    if s != "" {
      var c, rest := s[0], s[1..];
      assert s == [c] + rest && [c][..0] == "";
      Utf16Append([c], rest);
      UnitsAppend([c], rest);
      assert Utf16([c]) == Encoded(c) && Units([c]) == RuneLen(c);
      DecodedFirst(c, Utf16(rest));
      Utf16Decodes(rest);
    }
  }

  /** The length of a text in UTF-16 code units: by Utf16Decodes that of its encoding. */
  method Utf16Len(s: string) returns (n: nat)
    ensures n == Units(s)
  {
    n := 0;
    for i := 0 to |s|
      invariant n == Units(s[..i])
    {
      assert s[..i + 1][..i] == s[..i];
      n := n + RuneLen(s[i]);
    }
    assert s[..|s|] == s;
  }

  // ----- Placeholders: @\{([^{}\s]+)\} -----

  predicate IsSpace(c: char) {
    c in "\t\n\U{C}\r "
  }

  /** A character that ends the run of a recipient. */
  predicate Ends(c: char) {
    c == '{' || c == '}' || IsSpace(c)
  }

  datatype Match = Match(start: nat, end: nat)

  /** The end of the match that starts at a position. */
  function MatchAt(body: string, start: nat): Option<nat> {
    if start + 2 <= |body| && body[start] == '@' && body[start + 1] == '{' then
      var run := start + 2 + IndexOf(body[start + 2..], Ends);
      if start + 2 < run < |body| && body[run] == '}' then Some(run + 1) else None
    else None
  }

  /** The pattern matches there: "@{", some characters other than braces and spaces, and "}". */
  predicate IsMatch(body: string, m: Match) {
    && m.start + 3 < m.end <= |body| && body[m.start] == '@' && body[m.start + 1] == '{' && body[m.end - 1] == '}'
    && forall k :: m.start + 2 <= k < m.end - 1 ==> body[k] !in "{}\t\n\U{C}\r "
  }

  lemma MatchMeaning(body: string, m: Match)
    ensures MatchAt(body, m.start) == Some(m.end) <==> IsMatch(body, m)
  {
    if m.start + 2 <= |body| {
      var tail := body[m.start + 2..];
      var run := IndexOf(tail, Ends);
      assert forall k :: m.start + 2 <= k < |body| ==> body[k] == tail[k - m.start - 2];
      if IsMatch(body, m) {
        assert Ends(tail[m.end - 1 - m.start - 2]);
        assert forall k :: 0 <= k < m.end - 1 - m.start - 2 ==> !Ends(tail[k]) by {
          forall k | 0 <= k < m.end - 1 - m.start - 2 ensures !Ends(tail[k]) {
            assert body[m.start + 2 + k] !in "{}\t\n\U{C}\r ";
          }
        }
      }
    }
  }

  /** A match begins within another one only where that begins. */
  lemma MatchesApart(body: string, m: Match, other: Match)
    requires IsMatch(body, m) && IsMatch(body, other) && m.start <= other.start < m.end
    ensures m == other
  {
    assert body[other.start] == '@' && body[other.start + 1] == '{';
    assert other.start == m.start;
    MatchMeaning(body, m);
    MatchMeaning(body, other);
  }

  /** The matches found are all there are. */
  lemma {:induction false} FindAllMeaning(body: string, from: nat, m: Match)
    ensures m in FindAll(body, from) <==> from <= m.start && IsMatch(body, m)
    decreases |body| - from
  {
    if from < |body| {
      var end := MatchAt(body, from);
      if end.Some? {
        var first := Match(from, end.value);
        MatchMeaning(body, first);
        FindAllMeaning(body, end.value, m);
        if from <= m.start < end.value && IsMatch(body, m) { MatchesApart(body, first, m); }
      } else {
        FindAllMeaning(body, from + 1, m);
        if m.start == from { MatchMeaning(body, m); }
      }
    }
  }

  /** The leftmost matches that don't overlap, from a position. */
  function FindAll(body: string, from: nat): seq<Match>
    decreases |body| - from
  {
    if from >= |body| then []
    else
      var end := MatchAt(body, from);
      if end.Some? && end.value > from then [Match(from, end.value)] + FindAll(body, end.value)
      else FindAll(body, from + 1)
  }

  /** Matches lie one after the other within the body. */
  predicate InOrder(body: string, matches: seq<Match>, from: nat) {
    from <= |body| &&
    (matches != [] ==>
       && from <= matches[0].start && matches[0].start + 3 < matches[0].end <= |body|
       && InOrder(body, matches[1..], matches[0].end))
  }

  lemma {:induction false} FindAllInOrder(body: string, from: nat, search: nat)
    requires from <= search && from <= |body|
    ensures InOrder(body, FindAll(body, search), from)
    decreases |body| - search
  {
    if search < |body| {
      var end := MatchAt(body, search);
      if end.Some? && end.value > search {
        FindAllInOrder(body, end.value, end.value);
      } else {
        FindAllInOrder(body, from, search + 1);
      }
    }
  }

  /** The text of a placeholder between the braces. */
  function Inner(body: string, m: Match): string
    requires m.start + 3 < m.end <= |body|
  {
    body[m.start + 2..m.end - 1]
  }

  // ----- Parsing -----

  /** The user a recipient argument names; None for groups and invalid arguments. */
  type Parser = string -> Option<Target>

  datatype Mention = Mention(start: nat, target: Target)

  /** The placeholders of users. */
  function Accepted(body: string, matches: seq<Match>, parse: Parser): seq<Match> {
    if matches == [] then []
    else
      var m := matches[0];
      (if m.start + 3 < m.end <= |body| && parse(Inner(body, m)).Some? then [m] else [])
      + Accepted(body, matches[1..], parse)
  }

  lemma {:induction false} AcceptedInOrder(body: string, matches: seq<Match>, from: nat, parse: Parser)
    requires InOrder(body, matches, from)
    ensures InOrder(body, Accepted(body, matches, parse), from)
    decreases matches
  {
    if matches != [] {
      AcceptedInOrder(body, matches[1..], matches[0].end, parse);
      var m, rest := matches[0], Accepted(body, matches[1..], parse);
      Earlier(body, rest, m.end, from);
      assert ([m] + rest)[1..] == rest && [] + rest == rest;
    }
  }

  lemma Earlier(body: string, matches: seq<Match>, from: nat, before: nat)
    requires InOrder(body, matches, from) && before <= from
    ensures InOrder(body, matches, before)
  {
  }

  /** The body from a position on, with each placeholder replaced by a text. */
  function Replaced(body: string, matches: seq<Match>, from: nat, texts: seq<string>): string
    requires InOrder(body, matches, from) && |texts| == |matches|
    decreases matches
  {
    if matches == [] then body[from..]
    else body[from..matches[0].start] + texts[0] + Replaced(body, matches[1..], matches[0].end, texts[1..])
  }

  function Placeholders(n: nat): seq<string> {
    seq(n, _ => [OBJECT_REPLACEMENT])
  }

  /** Where each placeholder starts in the rewritten body, in code units, given those before a position. */
  function Offsets(body: string, matches: seq<Match>, from: nat, units: nat): seq<nat>
    requires InOrder(body, matches, from)
    decreases matches
  {
    if matches == [] then []
    else
      var offset := units + Units(body[from..matches[0].start]);
      [offset] + Offsets(body, matches[1..], matches[0].end, offset + 1)
  }

  /** What parsing gives: the rewritten body, where each placeholder starts, and whom it names. */
  datatype Parsed = Parsed(body: string, offsets: seq<nat>, targets: seq<Target>)

  /** The body from a position on, with the placeholders of users replaced; other matches are left alone. */
  function Rewritten(body: string, matches: seq<Match>, from: nat, units: nat, parse: Parser): Parsed
    requires InOrder(body, matches, from)
    decreases matches
  {
    if matches == [] then Parsed(body[from..], [], [])
    else
      Earlier(body, matches[1..], matches[0].end, from);
      var m, target := matches[0], parse(Inner(body, matches[0]));
      if target.None? then Rewritten(body, matches[1..], from, units, parse)
      else
        var offset := units + Units(body[from..m.start]);
        Replacing(body[from..m.start], offset, target.value, Rewritten(body, matches[1..], m.end, offset + 1, parse))
  }

  function Replacing(before: string, offset: nat, target: Target, rest: Parsed): Parsed {
    Parsed(before + [OBJECT_REPLACEMENT] + rest.body, [offset] + rest.offsets, [target] + rest.targets)
  }

  function ParsedOf(body: string, parse: Parser): Parsed {
    FindAllInOrder(body, 0, 0);
    Rewritten(body, FindAll(body, 0), 0, 0, parse)
  }

  lemma InOrderCons(body: string, m: Match, rest: seq<Match>, from: nat)
    ensures InOrder(body, [m] + rest, from) <==>
            from <= |body| && from <= m.start && m.start + 3 < m.end <= |body| && InOrder(body, rest, m.end)
  {
    assert ([m] + rest)[1..] == rest;
  }

  lemma ReplacedCons(body: string, m: Match, rest: seq<Match>, from: nat, text: string, texts: seq<string>)
    requires InOrder(body, [m] + rest, from) && |texts| == |rest|
    ensures InOrder(body, rest, m.end) && from <= m.start <= |body|
    ensures Replaced(body, [m] + rest, from, [text] + texts) == body[from..m.start] + text + Replaced(body, rest, m.end, texts)
  {
    InOrderCons(body, m, rest, from);
    assert ([m] + rest)[1..] == rest && ([text] + texts)[1..] == texts;
  }

  lemma OffsetsCons(body: string, m: Match, rest: seq<Match>, from: nat, units: nat)
    requires InOrder(body, [m] + rest, from)
    ensures InOrder(body, rest, m.end) && from <= m.start <= |body|
    ensures var offset := units + Units(body[from..m.start]);
            Offsets(body, [m] + rest, from, units) == [offset] + Offsets(body, rest, m.end, offset + 1)
  {
    InOrderCons(body, m, rest, from);
    assert ([m] + rest)[1..] == rest;
  }

  lemma PlaceholdersTail(n: nat)
    requires n > 0
    ensures Placeholders(n) == [[OBJECT_REPLACEMENT]] + Placeholders(n - 1)
  {
  }

  /** Exactly the placeholders of users are replaced, and the offsets and users are theirs. */
  ghost predicate Replaces(parsed: Parsed, body: string, accepted: seq<Match>, from: nat, units: nat, parse: Parser)
    requires InOrder(body, accepted, from)
  {
    && parsed.body == Replaced(body, accepted, from, Placeholders(|accepted|))
    && parsed.offsets == Offsets(body, accepted, from, units)
    && |parsed.targets| == |accepted|
    && forall i :: 0 <= i < |accepted| ==>
         accepted[i].start + 3 < accepted[i].end <= |body| && parse(Inner(body, accepted[i])) == Some(parsed.targets[i])
  }

  lemma ReplacingMore(
    parsed: Parsed, body: string, m: Match, rest: seq<Match>, from: nat, offset: nat, units: nat, target: Target, parse: Parser)
    requires InOrder(body, [m] + rest, from) && InOrder(body, rest, m.end) && from <= m.start <= |body|
    requires offset == units + Units(body[from..m.start]) && m.start + 3 < m.end <= |body| && parse(Inner(body, m)) == Some(target)
    requires Replaces(parsed, body, rest, m.end, offset + 1, parse)
    ensures Replaces(Replacing(body[from..m.start], offset, target, parsed), body, [m] + rest, from, units, parse)
  {
    PlaceholdersTail(|rest| + 1);
    ReplacedCons(body, m, rest, from, [OBJECT_REPLACEMENT], Placeholders(|rest|));
    OffsetsCons(body, m, rest, from, units);
  }

  /** One match further: it is left alone, or replaced. */
  lemma RewrittenAlong(
    body: string, matches: seq<Match>, rest: seq<Match>, from: nat, units: nat, parse: Parser, before: string, offset: nat)
    requires InOrder(body, matches, from) && matches != [] && rest == matches[1..]
    requires before == body[from..matches[0].start] && offset == units + Units(before)
    ensures InOrder(body, rest, matches[0].end) && InOrder(body, rest, from)
    ensures var target := parse(Inner(body, matches[0]));
            Rewritten(body, matches, from, units, parse) ==
            if target.None? then Rewritten(body, rest, from, units, parse)
            else Replacing(before, offset, target.value, Rewritten(body, rest, matches[0].end, offset + 1, parse))
  {
    Earlier(body, rest, matches[0].end, from);
  }

  lemma AcceptedAlong(body: string, matches: seq<Match>, from: nat, parse: Parser)
    requires InOrder(body, matches, from) && matches != []
    ensures var m, rest := matches[0], Accepted(body, matches[1..], parse);
            Accepted(body, matches, parse) == if parse(Inner(body, m)).Some? then [m] + rest else rest
  {
  }

  lemma {:induction false} RewrittenMeaning(body: string, matches: seq<Match>, from: nat, units: nat, parse: Parser)
    requires InOrder(body, matches, from)
    ensures InOrder(body, Accepted(body, matches, parse), from)
    ensures Replaces(Rewritten(body, matches, from, units, parse), body, Accepted(body, matches, parse), from, units, parse)
    decreases matches
  {
    AcceptedInOrder(body, matches, from, parse);
    if matches != [] {
      var m, tail := matches[0], matches[1..];
      var offset, rest := units + Units(body[from..m.start]), Accepted(body, tail, parse);
      RewrittenAlong(body, matches, tail, from, units, parse, body[from..m.start], offset);
      AcceptedAlong(body, matches, from, parse);
      var target := parse(Inner(body, m));
      if target.None? {
        RewrittenMeaning(body, tail, from, units, parse);
      } else {
        RewrittenMeaning(body, tail, m.end, offset + 1, parse);
        ReplacingMore(Rewritten(body, tail, m.end, offset + 1, parse), body, m, rest, from, offset, units, target.value, parse);
      }
    }
  }

  /** The starts are the offsets, as far as they fit 32 bits. */
  predicate IsMentions(mentions: seq<Mention>, offsets: seq<nat>, targets: seq<Target>) {
    && |mentions| == |offsets| == |targets|
    && forall i :: 0 <= i < |mentions| ==> mentions[i] == Mention(offsets[i] % TWO_TO_THE_32, targets[i])
  }

  function Prefixed(done: Parsed, rest: Parsed): Parsed {
    Parsed(done.body + rest.body, done.offsets + rest.offsets, done.targets + rest.targets)
  }

  lemma PrefixedAlong(done: Parsed, before: string, offset: nat, target: Target, rest: Parsed)
    ensures Prefixed(done, Replacing(before, offset, target, rest))
         == Prefixed(Parsed(done.body + before + [OBJECT_REPLACEMENT], done.offsets + [offset], done.targets + [target]), rest)
  {
    assert done.body + (before + [OBJECT_REPLACEMENT] + rest.body) == done.body + before + [OBJECT_REPLACEMENT] + rest.body;
    assert done.offsets + ([offset] + rest.offsets) == done.offsets + [offset] + rest.offsets;
    assert done.targets + ([target] + rest.targets) == done.targets + [target] + rest.targets;
  }

  lemma ParseStep(
    all: Parsed, done: Parsed, body: string, matches: seq<Match>, rest: seq<Match>, from: nat, units: nat, parse: Parser,
    before: string, offset: nat)
    requires InOrder(body, matches, from) && matches != [] && rest == matches[1..]
    requires before == body[from..matches[0].start] && offset == units + Units(before)
    requires all == Prefixed(done, Rewritten(body, matches, from, units, parse))
    ensures InOrder(body, rest, matches[0].end) && InOrder(body, rest, from)
    ensures var target := parse(Inner(body, matches[0]));
            && (target.None? ==> all == Prefixed(done, Rewritten(body, rest, from, units, parse)))
            && (target.Some? ==>
                  all == Prefixed(Parsed(done.body + before + [OBJECT_REPLACEMENT], done.offsets + [offset], done.targets + [target.value]),
                                  Rewritten(body, rest, matches[0].end, offset + 1, parse)))
  {
    RewrittenAlong(body, matches, rest, from, units, parse, before, offset);
    var target := parse(Inner(body, matches[0]));
    if target.Some? {
      PrefixedAlong(done, before, offset, target.value, Rewritten(body, rest, matches[0].end, offset + 1, parse));
    }
  }

  method ParseMentions(body: string, parse: Parser) returns (rewritten: string, mentions: seq<Mention>)
    ensures rewritten == ParsedOf(body, parse).body
    ensures IsMentions(mentions, ParsedOf(body, parse).offsets, ParsedOf(body, parse).targets)
  {
    var matches := FindAll(body, 0);
    FindAllInOrder(body, 0, 0);
    var units: nat, last: nat := 0, 0;
    rewritten, mentions := "", [];
    ghost var done := Parsed("", [], []);
    ghost var all := ParsedOf(body, parse);
    assert matches[0..] == matches && Prefixed(done, all) == all;
    for i := 0 to |matches|
      invariant InOrder(body, matches[i..], last)
      invariant done.body == rewritten && IsMentions(mentions, done.offsets, done.targets)
      invariant all == Prefixed(done, Rewritten(body, matches[i..], last, units, parse))
    {
      var m := matches[i];
      var before := body[last..m.start];
      var n := Utf16Len(before);
      ParseStep(all, done, body, matches[i..], matches[i + 1..], last, units, parse, before, units + n);
      var target := parse(Inner(body, m));
      if target.None? {
        continue;
      }
      MentionsAlong(mentions, done.offsets, done.targets, units + n, target.value);
      done := Parsed(done.body + before + [OBJECT_REPLACEMENT], done.offsets + [units + n], done.targets + [target.value]);
      units := units + n;
      mentions := mentions + [Mention(units % TWO_TO_THE_32, target.value)];
      units := units + 1;
      rewritten := rewritten + before + [OBJECT_REPLACEMENT];
      last := m.end;
    }
    NoneLeft(body, last, units, parse);
    rewritten := rewritten + body[last..];
  }

  lemma NoneLeft(body: string, last: nat, units: nat, parse: Parser)
    requires last <= |body|
    ensures Rewritten(body, [], last, units, parse) == Parsed(body[last..], [], [])
  {
  }

  lemma MentionsAlong(mentions: seq<Mention>, offsets: seq<nat>, targets: seq<Target>, offset: nat, target: Target)
    requires IsMentions(mentions, offsets, targets)
    ensures IsMentions(mentions + [Mention(offset % TWO_TO_THE_32, target)], offsets + [offset], targets + [target])
  {
  }

  // ----- Printing -----

  /** A mention of a received message, which covers a range of code units. */
  datatype Range = Range(start: nat, length: nat, recipient: Recipient)

  /** The position at which a code unit starts, if one does. */
  function Boundary(body: string, unit: nat): Option<nat> {
    if Units(body) == unit then Some(|body|)
    else if body == "" then None
    else Boundary(body[..|body| - 1], unit)
  }

  function Named(m: Range, name: Recipient -> string): string {
    "@" + name(m.recipient)
  }

  function Printed(body: string, ordered: seq<Range>, last: nat, name: Recipient -> string): string
    requires last <= |body|
    decreases ordered
  {
    if ordered == [] then body[last..]
    else
      var m := ordered[0];
      var start, end := Boundary(body, m.start), Boundary(body, m.start + m.length);
      if Skipped(body, m, last) then
        Printed(body, ordered[1..], last, name)
      else
        BoundaryWithin(body, m.start);
        BoundaryWithin(body, m.start + m.length);
        body[last..start.value] + Named(m, name) + Printed(body, ordered[1..], end.value, name)
  }

  lemma {:induction false} BoundaryWithin(body: string, unit: nat)
    ensures Boundary(body, unit).Some? ==> Boundary(body, unit).value <= |body| && Units(body[..Boundary(body, unit).value]) == unit
  {
    if Units(body) == unit {
      assert body[..|body|] == body;
    } else if body != "" {
      BoundaryWithin(body[..|body| - 1], unit);
      if Boundary(body, unit).Some? {
        var p := Boundary(body, unit).value;
        assert body[..|body| - 1][..p] == body[..p];
      }
    }
  }

  lemma {:induction false} BoundaryAt(body: string, p: nat)
    requires p <= |body|
    ensures Boundary(body, Units(body[..p])) == Some(p)
  {
    if p == |body| {
      assert body[..p] == body;
    } else {
      var front := body[..|body| - 1];
      assert front[..p] == body[..p];
      BoundaryAt(front, p);
      UnitsAppend(body[..p], body[p..]);
      UnitsLength(body[p..]);
      assert body == body[..p] + body[p..];
    }
  }

  /** A code unit begins at a position exactly if that many come before it. */
  lemma BoundaryMeaning(body: string, unit: nat, p: nat)
    ensures Boundary(body, unit) == Some(p) <==> p <= |body| && |Utf16(body[..p])| == unit
  {
    BoundaryWithin(body, unit);
    if p <= |body| {
      BoundaryAt(body, p);
      Utf16Decodes(body[..p]);
    }
  }

  /** A range from a position to another one, neither empty nor of nobody, nor before what is printed already. */
  predicate CanPrint(body: string, m: Range, last: nat, p: nat, q: nat) {
    && m.length > 0 && m.recipient != NOBODY && last <= p <= |body| && q <= |body|
    && |Utf16(body[..p])| == m.start && |Utf16(body[..q])| == m.start + m.length
  }

  /** Such a range is printed as the name in the place of the text it covers, and any other is left alone. */
  lemma PrintedFirst(body: string, ordered: seq<Range>, last: nat, name: Recipient -> string)
    requires ordered != [] && last <= |body|
    ensures forall p: nat, q: nat :: CanPrint(body, ordered[0], last, p, q)
              ==> Printed(body, ordered, last, name)
                  == body[last..p] + ("@" + name(ordered[0].recipient)) + Printed(body, ordered[1..], q, name)
    ensures (forall p: nat, q: nat :: !CanPrint(body, ordered[0], last, p, q))
              ==> Printed(body, ordered, last, name) == Printed(body, ordered[1..], last, name)
  {
    var m := ordered[0];
    forall p: nat, q: nat | CanPrint(body, m, last, p, q)
      ensures Boundary(body, m.start) == Some(p) && Boundary(body, m.start + m.length) == Some(q)
    {
      BoundaryMeaning(body, m.start, p);
      BoundaryMeaning(body, m.start + m.length, q);
    }
    if !Skipped(body, m, last) {
      var p, q := Boundary(body, m.start).value, Boundary(body, m.start + m.length).value;
      BoundaryMeaning(body, m.start, p);
      BoundaryMeaning(body, m.start + m.length, q);
      assert CanPrint(body, m, last, p, q);
    }
  }

  // ----- Sorting by start -----

  /** Puts a range behind those that start no later. */
  function Inserted(sorted: seq<Range>, m: Range): seq<Range> {
    if sorted == [] || sorted[|sorted| - 1].start <= m.start then sorted + [m]
    else Inserted(sorted[..|sorted| - 1], m) + [sorted[|sorted| - 1]]
  }

  function StableSorted(ranges: seq<Range>): seq<Range> {
    if ranges == [] then [] else Inserted(StableSorted(ranges[..|ranges| - 1]), ranges[|ranges| - 1])
  }

  predicate ByStart(ranges: seq<Range>) {
    forall i, j :: 0 <= i < j < |ranges| ==> ranges[i].start <= ranges[j].start
  }

  function StartsAt(start: nat): Range -> bool {
    (m: Range) => m.start == start
  }

  lemma FilterAppend(s: seq<Range>, m: Range, start: nat)
    ensures Filter(s + [m], StartsAt(start)) == Filter(s, StartsAt(start)) + Kept(m, start)
  {
    assert (s + [m])[..|s|] == s;
  }

  lemma {:induction false} InsertedByStart(sorted: seq<Range>, m: Range)
    requires ByStart(sorted)
    ensures ByStart(Inserted(sorted, m))
    ensures forall i :: 0 <= i < |Inserted(sorted, m)| ==>
              Inserted(sorted, m)[i].start <= if sorted == [] || sorted[|sorted| - 1].start <= m.start then m.start else sorted[|sorted| - 1].start
  {
    if sorted != [] && sorted[|sorted| - 1].start > m.start {
      InsertedByStart(sorted[..|sorted| - 1], m);
    }
  }

  function Kept(m: Range, start: nat): seq<Range> {
    if m.start == start then [m] else []
  }

  lemma {:induction false} InsertedStable(sorted: seq<Range>, m: Range, start: nat)
    requires ByStart(sorted)
    ensures Filter(Inserted(sorted, m), StartsAt(start)) == Filter(sorted, StartsAt(start)) + Kept(m, start)
  {
    if sorted != [] && sorted[|sorted| - 1].start > m.start {
      var front, last := sorted[..|sorted| - 1], sorted[|sorted| - 1];
      InsertedStable(front, m, start);
      FilterAppend(Inserted(front, m), last, start);
      FilterAppend(front, last, start);
      assert sorted == front + [last];
      var x := Filter(front, StartsAt(start));
      assert x + Kept(m, start) + Kept(last, start) == x + Kept(last, start) + Kept(m, start);
    } else {
      FilterAppend(sorted, m, start);
    }
  }

  /** The sort is in order by start. */
  lemma {:induction false} SortedByStart(ranges: seq<Range>)
    ensures ByStart(StableSorted(ranges))
  {
    if ranges != [] {
      SortedByStart(ranges[..|ranges| - 1]);
      InsertedByStart(StableSorted(ranges[..|ranges| - 1]), ranges[|ranges| - 1]);
    }
  }

  /** The sort is stable: ranges with the same start stay in their order. */
  lemma {:induction false} StableSortedMeaning(ranges: seq<Range>, start: nat)
    ensures Filter(StableSorted(ranges), StartsAt(start)) == Filter(ranges, StartsAt(start))
  {
    if ranges != [] {
      var front, last := ranges[..|ranges| - 1], ranges[|ranges| - 1];
      StableSortedMeaning(front, start);
      SortedByStart(front);
      InsertedStable(StableSorted(front), last, start);
      assert ranges == front + [last];
      FilterAppend(front, last, start);
    }
  }

  lemma {:induction false} AlreadySorted(ranges: seq<Range>)
    requires ByStart(ranges)
    ensures StableSorted(ranges) == ranges
  {
    if ranges != [] {
      var front, last := ranges[..|ranges| - 1], ranges[|ranges| - 1];
      AlreadySorted(front);
      assert front != [] ==> front[|front| - 1] == ranges[|ranges| - 2];
      assert Inserted(front, last) == front + [last];
      assert ranges == front + [last];
    }
  }

  lemma InsertedAlong(sorted: seq<Range>, m: Range, n: nat)
    requires 0 < n <= |sorted| && sorted[n - 1].start > m.start
    ensures Inserted(sorted[..n], m) + sorted[n..] == Inserted(sorted[..n - 1], m) + sorted[n - 1..]
  {
    assert sorted[..n][..n - 1] == sorted[..n - 1];
    var first, last, rest := Inserted(sorted[..n - 1], m), [sorted[n - 1]], sorted[n..];
    assert sorted[n - 1..] == last + rest;
    assert (first + last) + rest == first + (last + rest);
  }

  lemma InsertedHere(sorted: seq<Range>, m: Range, n: nat)
    requires n <= |sorted| && (n > 0 ==> sorted[n - 1].start <= m.start)
    ensures Inserted(sorted[..n], m) + sorted[n..] == sorted[..n] + [m] + sorted[n..]
  {
  }

  /** Insertion as a loop over the positions from the end. */
  method Insert(sorted: seq<Range>, m: Range) returns (r: seq<Range>)
    ensures r == Inserted(sorted, m)
  {
    var n := |sorted|;
    ghost var goal := Inserted(sorted, m);
    assert sorted[..n] == sorted && sorted[n..] == [] && goal + [] == goal;
    while n > 0 && sorted[n - 1].start > m.start
      invariant 0 <= n <= |sorted| && goal == Inserted(sorted[..n], m) + sorted[n..]
    {
      InsertedAlong(sorted, m, n);
      n := n - 1;
    }
    InsertedHere(sorted, m, n);
    r := sorted[..n] + [m] + sorted[n..];
  }

  method SortStable(ranges: seq<Range>) returns (r: seq<Range>)
    ensures r == StableSorted(ranges)
  {
    r := [];
    for i := 0 to |ranges|
      invariant r == StableSorted(ranges[..i])
    {
      assert ranges[..i + 1][..i] == ranges[..i];
      r := Insert(r, ranges[i]);
    }
    assert ranges[..|ranges|] == ranges;
  }

  /** The positions of a text by code unit. */
  method Boundaries(body: string) returns (boundaries: map<nat, nat>)
    ensures forall u :: (u in boundaries <==> Boundary(body, u).Some?) && (u in boundaries ==> Some(boundaries[u]) == Boundary(body, u))
    ensures forall p :: 0 <= p <= |body| ==> |Utf16(body[..p])| in boundaries && boundaries[|Utf16(body[..p])|] == p
  {
    boundaries := map[];
    var units: nat := 0;
    for i := 0 to |body|
      invariant units == Units(body[..i])
      invariant forall u :: u in boundaries ==> u < units
      invariant forall u :: u != units ==> (u in boundaries <==> Boundary(body[..i], u).Some?)
      invariant forall u :: u in boundaries ==> Some(boundaries[u]) == Boundary(body[..i], u)
    {
      assert body[..i + 1][..i] == body[..i];
      boundaries := boundaries[units := i];
      units := units + RuneLen(body[i]);
    }
    assert body[..|body|] == body;
    boundaries := boundaries[units := |body|];
    forall p | 0 <= p <= |body| ensures Boundary(body, |Utf16(body[..p])|) == Some(p) {
      BoundaryMeaning(body, |Utf16(body[..p])|, p);
    }
  }

  /** A range that is left alone. */
  predicate Skipped(body: string, m: Range, last: nat) {
    var start, end := Boundary(body, m.start), Boundary(body, m.start + m.length);
    m.length == 0 || m.recipient == NOBODY || start.None? || end.None? || start.value < last
  }

  lemma Assoc(a: string, b: string, c: string)
    ensures a + b + c == a + (b + c)
  {
  }

  lemma Assoc4(a: string, b: string, c: string, d: string)
    ensures a + (b + c + d) == (a + b + c) + d
  {
  }

  /** The positions a range covers, unless it is left alone. */
  function Located(body: string, m: Range, last: nat): (at: Option<(nat, nat)>)
    ensures at.Some? ==> last <= at.value.0 <= |body| && at.value.1 <= |body|
  {
    BoundaryWithin(body, m.start);
    BoundaryWithin(body, m.start + m.length);
    if Skipped(body, m, last) then None
    else Some((Boundary(body, m.start).value, Boundary(body, m.start + m.length).value))
  }

  lemma PrintStep(
    all: string, body: string, ordered: seq<Range>, rest: seq<Range>, last: nat, name: Recipient -> string, text: string,
    at: Option<(nat, nat)>)
    requires ordered != [] && rest == ordered[1..] && last <= |body| && at == Located(body, ordered[0], last)
    requires all == text + Printed(body, ordered, last, name)
    ensures all == if at.None? then text + Printed(body, rest, last, name)
                   else (text + body[last..at.value.0] + Named(ordered[0], name)) + Printed(body, rest, at.value.1, name)
  {
    if at.Some? {
      Assoc4(text, body[last..at.value.0], Named(ordered[0], name), Printed(body, rest, at.value.1, name));
    }
  }

  method Locate(body: string, boundaries: map<nat, nat>, m: Range, last: nat) returns (at: Option<(nat, nat)>)
    requires forall u :: (u in boundaries <==> Boundary(body, u).Some?) && (u in boundaries ==> Some(boundaries[u]) == Boundary(body, u))
    ensures at == Located(body, m, last)
  {
    var end := m.start + m.length;
    assert m.start in boundaries <==> Boundary(body, m.start).Some?;
    assert end in boundaries <==> Boundary(body, end).Some?;
    if || m.length == 0 || m.recipient == NOBODY || m.start !in boundaries || end !in boundaries
       || boundaries[m.start] < last
    {
      return None;
    }
    at := Some((boundaries[m.start], boundaries[end]));
  }

  /** Expands the ranges that lie on code unit boundaries and don't overlap an earlier one. */
  method MentionText(body: string, mentions: seq<Range>, name: Recipient -> string) returns (text: string)
    ensures text == Printed(body, StableSorted(mentions), 0, name)
  {
    if mentions == [] {
      return body;
    }
    var boundaries := Boundaries(body);
    var ordered := SortStable(mentions);
    ghost var all := Printed(body, ordered, 0, name);
    text := "";
    var last: nat := 0;
    assert ordered[0..] == ordered && "" + all == all;
    for i := 0 to |ordered|
      invariant last <= |body| && all == text + Printed(body, ordered[i..], last, name)
    {
      var at := Locate(body, boundaries, ordered[i], last);
      PrintStep(all, body, ordered[i..], ordered[i + 1..], last, name, text, at);
      if at.Some? {
        text := text + body[last..at.value.0] + Named(ordered[i], name);
        last := at.value.1;
      }
    }
    text := text + body[last..];
  }

  // ----- Printing undoes parsing -----

  /** Ranges of one code unit at the offsets, for resolved recipients. */
  function Ranges(offsets: seq<nat>, recipients: seq<Recipient>): seq<Range>
    requires |offsets| == |recipients|
  {
    seq(|offsets|, i requires 0 <= i < |offsets| => Range(offsets[i], 1, recipients[i]))
  }

  function Names(recipients: seq<Recipient>, name: Recipient -> string): seq<string> {
    seq(|recipients|, i requires 0 <= i < |recipients| => "@" + name(recipients[i]))
  }

  lemma {:induction false} OffsetsIncrease(body: string, matches: seq<Match>, from: nat, units: nat)
    requires InOrder(body, matches, from)
    ensures |Offsets(body, matches, from, units)| == |matches|
    ensures forall i :: 0 <= i < |matches| ==> Offsets(body, matches, from, units)[i] >= units
    ensures forall i, j :: 0 <= i < j < |matches| ==> Offsets(body, matches, from, units)[i] < Offsets(body, matches, from, units)[j]
    decreases matches
  {
    if matches != [] {
      OffsetsIncrease(body, matches[1..], matches[0].end, units + Units(body[from..matches[0].start]) + 1);
    }
  }

  /** Each placeholder is covered by the code unit at its offset. */
  ghost predicate Covered(out: string, offset: nat, position: nat) {
    && Boundary(out, offset) == Some(position) && Boundary(out, offset + 1) == Some(position + 1)
    && position < |out| && out[position] == OBJECT_REPLACEMENT
  }

  lemma PlaceholderUnits(pre: string, piece: string)
    ensures Units(pre + piece) == Units(pre) + Units(piece)
    ensures Units(pre + piece + [OBJECT_REPLACEMENT]) == Units(pre) + Units(piece) + 1
  {
    UnitsAppend(pre, piece);
    UnitsAppend(pre + piece, [OBJECT_REPLACEMENT]);
    assert [OBJECT_REPLACEMENT][..0] == "";
    assert Units([OBJECT_REPLACEMENT]) == 1;
  }

  lemma CoveredAt(out: string, p: nat)
    requires p < |out| && out[p] == OBJECT_REPLACEMENT
    ensures Covered(out, Units(out[..p]), p)
  {
    assert out[..p + 1] == out[..p] + [OBJECT_REPLACEMENT];
    PlaceholderUnits(out[..p], "");
    assert out[..p] + "" == out[..p];
    BoundaryAt(out, p);
    BoundaryAt(out, p + 1);
  }

  lemma FirstCovered(pre: string, piece: string, rest: string, out: string)
    requires out == pre + (piece + [OBJECT_REPLACEMENT] + rest)
    ensures Covered(out, Units(pre) + Units(piece), |pre| + |piece|)
    ensures Units(pre + piece + [OBJECT_REPLACEMENT]) == Units(pre) + Units(piece) + 1
  {
    PieceWithin(pre, piece, rest, out);
    PlaceholderUnits(pre, piece);
    CoveredAt(out, |pre| + |piece|);
  }

  lemma PieceWithin(pre: string, piece: string, rest: string, out: string)
    requires out == pre + (piece + [OBJECT_REPLACEMENT] + rest)
    ensures var p := |pre| + |piece|;
            p < |out| && out[p] == OBJECT_REPLACEMENT && out[..p] == pre + piece
  {
  }

  // A rewritten body as the pieces of text before each placeholder, and the tail after the last one.

  function Joined(pieces: seq<string>, texts: seq<string>, tail: string): string
    requires |pieces| == |texts|
    decreases pieces
  {
    if pieces == [] then tail else pieces[0] + texts[0] + Joined(pieces[1..], texts[1..], tail)
  }

  function PieceOffsets(pieces: seq<string>, units: nat): (offsets: seq<nat>)
    ensures |offsets| == |pieces|
    decreases pieces
  {
    if pieces == [] then []
    else [units + Units(pieces[0])] + PieceOffsets(pieces[1..], units + Units(pieces[0]) + 1)
  }

  function Pieces(body: string, matches: seq<Match>, from: nat): (pieces: seq<string>)
    requires InOrder(body, matches, from)
    ensures |pieces| == |matches|
    decreases matches
  {
    if matches == [] then [] else [body[from..matches[0].start]] + Pieces(body, matches[1..], matches[0].end)
  }

  function Tail(body: string, matches: seq<Match>, from: nat): string
    requires InOrder(body, matches, from)
    decreases matches
  {
    if matches == [] then body[from..] else Tail(body, matches[1..], matches[0].end)
  }

  lemma {:induction false} ReplacedPieces(body: string, matches: seq<Match>, from: nat, texts: seq<string>)
    requires InOrder(body, matches, from) && |texts| == |matches|
    ensures Replaced(body, matches, from, texts) == Joined(Pieces(body, matches, from), texts, Tail(body, matches, from))
    decreases matches
  {
    if matches != [] {
      ReplacedPieces(body, matches[1..], matches[0].end, texts[1..]);
    }
  }

  lemma {:induction false} OffsetsPieces(body: string, matches: seq<Match>, from: nat, units: nat)
    requires InOrder(body, matches, from)
    ensures Offsets(body, matches, from, units) == PieceOffsets(Pieces(body, matches, from), units)
    decreases matches
  {
    if matches != [] {
      OffsetsPieces(body, matches[1..], matches[0].end, units + Units(body[from..matches[0].start]) + 1);
    }
  }

  /** Where the placeholders are in a rewritten body whose pieces begin at a position. */
  function Positions(pieces: seq<string>, start: nat): (positions: seq<nat>)
    ensures |positions| == |pieces|
    decreases pieces
  {
    if pieces == [] then [] else [start + |pieces[0]|] + Positions(pieces[1..], start + |pieces[0]| + 1)
  }

  /** Characters one at a time, from a position on. */
  predicate Ascend(positions: seq<nat>, last: nat, end: nat) {
    last <= end && (positions != [] ==> last <= positions[0] && Ascend(positions[1..], positions[0] + 1, end))
  }

  lemma {:induction false} PositionsAscend(pre: string, pieces: seq<string>, tail: string, out: string)
    requires out == pre + Joined(pieces, Placeholders(|pieces|), tail)
    ensures Ascend(Positions(pieces, |pre|), |pre|, |out|)
    decreases pieces
  {
    if pieces != [] {
      NextPiece(pre, pieces, tail, out);
      PositionsAscend(pre + pieces[0] + [OBJECT_REPLACEMENT], pieces[1..], tail, out);
    }
  }

  lemma FirstPiece(pre: string, pieces: seq<string>, tail: string, out: string) returns (rest: string)
    requires pieces != [] && out == pre + Joined(pieces, Placeholders(|pieces|), tail)
    ensures rest == Joined(pieces[1..], Placeholders(|pieces| - 1), tail)
    ensures out == pre + (pieces[0] + [OBJECT_REPLACEMENT] + rest)
  {
    rest := Joined(pieces[1..], Placeholders(|pieces| - 1), tail);
    PlaceholdersTail(|pieces|);
    assert Placeholders(|pieces|)[1..] == Placeholders(|pieces| - 1);
  }

  lemma NextPiece(pre: string, pieces: seq<string>, tail: string, out: string)
    requires pieces != [] && out == pre + Joined(pieces, Placeholders(|pieces|), tail)
    ensures out == (pre + pieces[0] + [OBJECT_REPLACEMENT]) + Joined(pieces[1..], Placeholders(|pieces| - 1), tail)
  {
    var rest := FirstPiece(pre, pieces, tail, out);
    Assoc4(pre, pieces[0], [OBJECT_REPLACEMENT], rest);
  }

  lemma FirstOffset(pieces: seq<string>, units: nat, start: nat)
    requires pieces != []
    ensures PieceOffsets(pieces, units)[0] == units + Units(pieces[0])
    ensures Positions(pieces, start)[0] == start + |pieces[0]|
  {
  }

  lemma PieceCovered(pre: string, pieces: seq<string>, tail: string, out: string)
    requires pieces != [] && out == pre + Joined(pieces, Placeholders(|pieces|), tail)
    ensures Covered(out, Units(pre) + Units(pieces[0]), |pre| + |pieces[0]|)
    ensures Units(pre + pieces[0] + [OBJECT_REPLACEMENT]) == Units(pre) + Units(pieces[0]) + 1
  {
    var rest := FirstPiece(pre, pieces, tail, out);
    FirstCovered(pre, pieces[0], rest, out);
  }

  /** The offset and position of a later placeholder, seen from the piece after the first one. */
  lemma NextOffset(pieces: seq<string>, units: nat, start: nat, i: nat, nextUnits: nat, nextStart: nat)
    requires 0 < i < |pieces| && nextUnits == units + Units(pieces[0]) + 1 && nextStart == start + |pieces[0]| + 1
    ensures PieceOffsets(pieces, units)[i] == PieceOffsets(pieces[1..], nextUnits)[i - 1]
    ensures Positions(pieces, start)[i] == Positions(pieces[1..], nextStart)[i - 1]
  {
  }

  lemma {:induction false} PiecesCovered(
    pre: string, pieces: seq<string>, tail: string, out: string, i: nat, offset: nat, position: nat)
    requires out == pre + Joined(pieces, Placeholders(|pieces|), tail) && i < |pieces|
    requires offset == PieceOffsets(pieces, Units(pre))[i] && position == Positions(pieces, |pre|)[i]
    ensures Covered(out, offset, position)
    decreases i
  {
    PieceCovered(pre, pieces, tail, out);
    if i == 0 {
      FirstOffset(pieces, Units(pre), |pre|);
    } else {
      var next := pre + pieces[0] + [OBJECT_REPLACEMENT];
      NextPiece(pre, pieces, tail, out);
      NextOffset(pieces, Units(pre), |pre|, i, Units(next), |next|);
      PiecesCovered(next, pieces[1..], tail, out, i - 1, offset, position);
    }
  }

  /** The text with the characters at some positions replaced. */
  function PrintedAt(out: string, positions: seq<nat>, texts: seq<string>, last: nat): string
    requires |positions| == |texts| && Ascend(positions, last, |out|)
    decreases positions
  {
    if positions == [] then out[last..]
    else
      AscendWithin(positions, last, |out|);
      out[last..positions[0]] + texts[0] + PrintedAt(out, positions[1..], texts[1..], positions[0] + 1)
  }

  lemma AscendWithin(positions: seq<nat>, last: nat, end: nat)
    requires Ascend(positions, last, end) && positions != []
    ensures last <= positions[0] < end
  {
  }

  lemma {:induction false} PrintedCovered(
    out: string, offsets: seq<nat>, recipients: seq<Recipient>, positions: seq<nat>, last: nat, name: Recipient -> string)
    requires |positions| == |offsets| == |recipients| && NOBODY !in recipients && Ascend(positions, last, |out|)
    requires forall i :: 0 <= i < |offsets| ==> Covered(out, offsets[i], positions[i])
    ensures Printed(out, Ranges(offsets, recipients), last, name) == PrintedAt(out, positions, Names(recipients, name), last)
    decreases offsets
  {
    if offsets != [] {
      assert Covered(out, offsets[0], positions[0]);
      assert Ranges(offsets, recipients)[1..] == Ranges(offsets[1..], recipients[1..]);
      assert Names(recipients, name)[1..] == Names(recipients[1..], name);
      PrintedCovered(out, offsets[1..], recipients[1..], positions[1..], positions[0] + 1, name);
    }
  }

  lemma PrintedAtCons(out: string, p: nat, positions: seq<nat>, text: string, texts: seq<string>, last: nat)
    requires |positions| == |texts| && Ascend([p] + positions, last, |out|)
    ensures Ascend(positions, p + 1, |out|) && last <= p < |out|
    ensures PrintedAt(out, [p] + positions, [text] + texts, last) == out[last..p] + text + PrintedAt(out, positions, texts, p + 1)
  {
    assert ([p] + positions)[1..] == positions && ([text] + texts)[1..] == texts;
    AscendWithin([p] + positions, last, |out|);
  }

  lemma {:induction false} PrintedPieces(pre: string, pieces: seq<string>, tail: string, texts: seq<string>, out: string)
    requires |texts| == |pieces| && out == pre + Joined(pieces, Placeholders(|pieces|), tail)
    requires Ascend(Positions(pieces, |pre|), |pre|, |out|)
    ensures PrintedAt(out, Positions(pieces, |pre|), texts, |pre|) == Joined(pieces, texts, tail)
    decreases pieces
  {
    if pieces == [] {
      assert out[|pre|..] == tail;
    } else {
      var piece, next := pieces[0], pre + pieces[0] + [OBJECT_REPLACEMENT];
      var p := |pre| + |piece|;
      assert |next| == p + 1 && texts == [texts[0]] + texts[1..];
      PrintedAtCons(out, p, Positions(pieces[1..], |next|), texts[0], texts[1..], |pre|);
      NextPiece(pre, pieces, tail, out);
      PrintedPieces(next, pieces[1..], tail, texts[1..], out);
      assert out[|pre|..p] == piece;
    }
  }

  /** The placeholders of users in a body. */
  function Placed(body: string, parse: Parser): (accepted: seq<Match>)
    ensures InOrder(body, accepted, 0)
  {
    FindAllInOrder(body, 0, 0);
    AcceptedInOrder(body, FindAll(body, 0), 0, parse);
    Accepted(body, FindAll(body, 0), parse)
  }

  lemma ParsedPieces(body: string, parse: Parser)
    ensures var parsed, accepted := ParsedOf(body, parse), Placed(body, parse);
            var pieces, tail := Pieces(body, accepted, 0), Tail(body, accepted, 0);
            && parsed.body == Joined(pieces, Placeholders(|pieces|), tail)
            && parsed.offsets == PieceOffsets(pieces, 0)
            && |parsed.targets| == |accepted|
            && forall i :: 0 <= i < |accepted| ==>
                 accepted[i].start + 3 < accepted[i].end <= |body| && parse(Inner(body, accepted[i])) == Some(parsed.targets[i])
  {
    FindAllInOrder(body, 0, 0);
    var accepted := Placed(body, parse);
    RewrittenMeaning(body, FindAll(body, 0), 0, 0, parse);
    ReplacedPieces(body, accepted, 0, Placeholders(|accepted|));
    OffsetsPieces(body, accepted, 0, 0);
  }

  function Starts(mentions: seq<Mention>): seq<nat> {
    seq(|mentions|, i requires 0 <= i < |mentions| => mentions[i].start)
  }

  lemma UnitsSplit(body: string, from: nat, start: nat, end: nat)
    requires from <= start < end <= |body|
    ensures Units(body[from..]) >= Units(body[from..start]) + 1 + Units(body[end..])
  {
    var before, text, after := body[from..start], body[start..end], body[end..];
    assert body[from..] == before + (text + after);
    UnitsAppend(before, text + after);
    UnitsAppend(text, after);
    UnitsLength(text);
  }

  /** Placeholders begin within as many code units as the body has. */
  lemma {:induction false} OffsetsWithin(body: string, matches: seq<Match>, from: nat, units: nat, bound: nat)
    requires InOrder(body, matches, from) && units + Units(body[from..]) <= bound
    ensures |Offsets(body, matches, from, units)| == |matches|
    ensures forall i :: 0 <= i < |matches| ==> Offsets(body, matches, from, units)[i] < bound
    decreases matches
  {
    if matches != [] {
      var m := matches[0];
      UnitsSplit(body, from, m.start, m.end);
      OffsetsWithin(body, matches[1..], m.end, units + Units(body[from..m.start]) + 1, bound);
    }
  }

  lemma CoveredWithin(out: string, offset: nat, start: nat, position: nat)
    requires Covered(out, offset, position) && start == offset % TWO_TO_THE_32
    ensures Covered(out, start, position) <==> offset < TWO_TO_THE_32
  {
    BoundaryWithin(out, offset);
    BoundaryWithin(out, start);
  }

  /** Every placeholder is covered by the code unit at its offset, and the offsets increase. */
  lemma AllCovered(body: string, parse: Parser)
    ensures var parsed, positions := ParsedOf(body, parse), Positions(Pieces(body, Placed(body, parse), 0), 0);
            && |parsed.offsets| == |positions| == |Placed(body, parse)|
            && (forall i :: 0 <= i < |positions| ==> Covered(parsed.body, parsed.offsets[i], positions[i]))
            && forall i, j :: 0 <= i < j < |positions| ==> parsed.offsets[i] < parsed.offsets[j]
  {
    var parsed, accepted := ParsedOf(body, parse), Placed(body, parse);
    ParsedPieces(body, parse);
    var pieces, out := Pieces(body, accepted, 0), parsed.body;
    assert out == "" + out;
    forall i | 0 <= i < |pieces| ensures Covered(out, parsed.offsets[i], Positions(pieces, 0)[i]) {
      PiecesCovered("", pieces, Tail(body, accepted, 0), out, i, parsed.offsets[i], Positions(pieces, 0)[i]);
    }
    OffsetsPieces(body, accepted, 0, 0);
    OffsetsIncrease(body, accepted, 0, 0);
  }

  /** Fewer than 2^32 code units of the rewritten body come before each placeholder. */
  ghost predicate EarlyPlaceholders(body: string, parse: Parser) {
    var positions := Positions(Pieces(body, Placed(body, parse), 0), 0);
    var out := ParsedOf(body, parse).body;
    forall i :: 0 <= i < |positions| ==> positions[i] <= |out| && |Utf16(out[..positions[i]])| < TWO_TO_THE_32
  }

  lemma EarlyOffsets(body: string, parse: Parser)
    ensures EarlyPlaceholders(body, parse)
            <==> forall i :: 0 <= i < |ParsedOf(body, parse).offsets| ==> ParsedOf(body, parse).offsets[i] < TWO_TO_THE_32
  {
    var out, offsets := ParsedOf(body, parse).body, ParsedOf(body, parse).offsets;
    var positions := Positions(Pieces(body, Placed(body, parse), 0), 0);
    AllCovered(body, parse);
    forall i | 0 <= i < |positions| ensures positions[i] <= |out| && |Utf16(out[..positions[i]])| == offsets[i] {
      assert Covered(out, offsets[i], positions[i]);
      BoundaryWithin(out, offsets[i]);
      Utf16Decodes(out[..positions[i]]);
    }
  }

  /** In a body of fewer than 2^32 code units every placeholder begins before that. */
  lemma ShortBodyFits(body: string, parse: Parser)
    requires |Utf16(body)| < TWO_TO_THE_32
    ensures EarlyPlaceholders(body, parse)
  {
    var accepted := Placed(body, parse);
    Utf16Decodes(body);
    ParsedPieces(body, parse);
    OffsetsPieces(body, accepted, 0, 0);
    assert body[0..] == body;
    OffsetsWithin(body, accepted, 0, 0, Units(body));
    EarlyOffsets(body, parse);
  }

  /** In UTF-16, the one unit from start is the object replacement character at the position. */
  predicate CoversUnit(out: string, start: nat, position: nat) {
    && position < |out| && start < |Utf16(out)|
    && Utf16(out)[..start] == Utf16(out[..position]) && Utf16(out)[start..start + 1] == [0xFFFC]
  }

  lemma UnitAt(out: string, position: nat)
    requires position < |out| && out[position] == OBJECT_REPLACEMENT
    ensures Utf16(out) == Utf16(out[..position]) + ([0xFFFC] + Utf16(out[position + 1..]))
  {
    var before, after := out[..position], out[position + 1..];
    assert out == before + ([OBJECT_REPLACEMENT] + after);
    Utf16Append(before, [OBJECT_REPLACEMENT] + after);
    Utf16Append([OBJECT_REPLACEMENT], after);
    assert [OBJECT_REPLACEMENT][..0] == "" && Utf16([OBJECT_REPLACEMENT]) == [0xFFFC];
  }

  lemma CoveredUnit(out: string, start: nat, position: nat)
    requires position < |out| && out[position] == OBJECT_REPLACEMENT
    ensures Covered(out, start, position) <==> CoversUnit(out, start, position)
    ensures Covered(out, start, position) <==> start == |Utf16(out[..position])|
  {
    UnitAt(out, position);
    Utf16Decodes(out[..position]);
    CoveredAt(out, position);
    BoundaryWithin(out, start);
  }

  /** The emitted ranges cover exactly their placeholders, one each and in order, if and only if fewer than
      2^32 code units of the rewritten body come before; that is so in every body of fewer than 2^32. */
  lemma RangeCovers(body: string, parse: Parser, mentions: seq<Mention>, i: nat)
    requires var parsed := ParsedOf(body, parse); IsMentions(mentions, parsed.offsets, parsed.targets)
    requires i < |mentions|
    ensures var parsed, accepted := ParsedOf(body, parse), Placed(body, parse);
            && |mentions| == |accepted|
            && var position := Positions(Pieces(body, accepted, 0), 0)[i];
               && position < |parsed.body| && parsed.body[position] == OBJECT_REPLACEMENT
               && (CoversUnit(parsed.body, mentions[i].start, position) <==> |Utf16(parsed.body[..position])| < TWO_TO_THE_32)
               && (|Utf16(body)| < TWO_TO_THE_32 ==> CoversUnit(parsed.body, mentions[i].start, position))
    ensures forall j :: 0 <= j < i ==> ParsedOf(body, parse).offsets[j] < ParsedOf(body, parse).offsets[i]
  {
    AllCovered(body, parse);
    var parsed, position := ParsedOf(body, parse), Positions(Pieces(body, Placed(body, parse), 0), 0)[i];
    CoveredWithin(parsed.body, parsed.offsets[i], mentions[i].start, position);
    BoundaryWithin(parsed.body, parsed.offsets[i]);
    CoveredUnit(parsed.body, mentions[i].start, position);
    Utf16Decodes(parsed.body[..position]);
    Utf16Decodes(body);
    if Units(body) < TWO_TO_THE_32 {
      ShortBodyFits(body, parse);
      EarlyOffsets(body, parse);
    }
  }

  lemma SmallStarts(mentions: seq<Mention>, offsets: seq<nat>, targets: seq<Target>)
    requires IsMentions(mentions, offsets, targets)
    requires forall i :: 0 <= i < |offsets| ==> offsets[i] < TWO_TO_THE_32
    ensures Starts(mentions) == offsets
  {
    forall i | 0 <= i < |mentions| ensures Starts(mentions)[i] == offsets[i] {
      assert offsets[i] % TWO_TO_THE_32 == offsets[i];
    }
  }

  lemma StartsAreOffsets(body: string, parse: Parser, mentions: seq<Mention>)
    requires EarlyPlaceholders(body, parse)
    requires var parsed := ParsedOf(body, parse); IsMentions(mentions, parsed.offsets, parsed.targets)
    ensures Starts(mentions) == ParsedOf(body, parse).offsets
  {
    EarlyOffsets(body, parse);
    SmallStarts(mentions, ParsedOf(body, parse).offsets, ParsedOf(body, parse).targets);
  }

  lemma OffsetsPrinted(body: string, parse: Parser, recipients: seq<Recipient>, name: Recipient -> string)
    requires |recipients| == |Placed(body, parse)| == |ParsedOf(body, parse).offsets| && NOBODY !in recipients
    ensures Printed(ParsedOf(body, parse).body, StableSorted(Ranges(ParsedOf(body, parse).offsets, recipients)), 0, name)
         == Replaced(body, Placed(body, parse), 0, Names(recipients, name))
  {
    var parsed, accepted := ParsedOf(body, parse), Placed(body, parse);
    ParsedPieces(body, parse);
    AllCovered(body, parse);
    var pieces, tail := Pieces(body, accepted, 0), Tail(body, accepted, 0);
    AlreadySorted(Ranges(parsed.offsets, recipients));
    PiecesPrinted(parsed.body, pieces, tail, parsed.offsets, recipients, name);
    ReplacedPieces(body, accepted, 0, Names(recipients, name));
  }

  /** Printing what was parsed puts the names of the recipients in the place of the placeholders, skipping none. */
  lemma PrintingReplaces(
    body: string, parse: Parser, mentions: seq<Mention>, recipients: seq<Recipient>, name: Recipient -> string)
    requires EarlyPlaceholders(body, parse)
    requires var parsed := ParsedOf(body, parse); IsMentions(mentions, parsed.offsets, parsed.targets)
    requires |recipients| == |mentions| && NOBODY !in recipients
    ensures |Placed(body, parse)| == |mentions|
    ensures Printed(ParsedOf(body, parse).body, StableSorted(Ranges(Starts(mentions), recipients)), 0, name)
         == Replaced(body, Placed(body, parse), 0, Names(recipients, name))
  {
    StartsAreOffsets(body, parse, mentions);
    AllCovered(body, parse);
    OffsetsPrinted(body, parse, recipients, name);
  }

  lemma PiecesPrinted(
    out: string, pieces: seq<string>, tail: string, offsets: seq<nat>, recipients: seq<Recipient>, name: Recipient -> string)
    requires out == Joined(pieces, Placeholders(|pieces|), tail) && |offsets| == |recipients| == |pieces| && NOBODY !in recipients
    requires forall i :: 0 <= i < |pieces| ==> Covered(out, offsets[i], Positions(pieces, 0)[i])
    ensures Printed(out, Ranges(offsets, recipients), 0, name) == Joined(pieces, Names(recipients, name), tail)
  {
    assert out == "" + out;
    PositionsAscend("", pieces, tail, out);
    PrintedCovered(out, offsets, recipients, Positions(pieces, 0), 0, name);
    PrintedPieces("", pieces, tail, Names(recipients, name), out);
  }

  // ----- The original texts -----

  predicate IsPlaceholder(body: string, m: Match) {
    m.start + 3 < m.end <= |body| && body[m.start] == '@' && body[m.start + 1] == '{' && body[m.end - 1] == '}'
  }

  lemma {:induction false} FoundPlaceholders(body: string, from: nat)
    ensures forall m :: m in FindAll(body, from) ==> IsPlaceholder(body, m)
    decreases |body| - from
  {
    if from < |body| {
      var end := MatchAt(body, from);
      if end.Some? && end.value > from {
        FoundPlaceholders(body, end.value);
      } else {
        FoundPlaceholders(body, from + 1);
      }
    }
  }

  lemma {:induction false} AcceptedAmong(body: string, matches: seq<Match>, parse: Parser)
    ensures forall m :: m in Accepted(body, matches, parse) ==> m in matches
  {
    if matches != [] { AcceptedAmong(body, matches[1..], parse); }
  }

  lemma {:induction false} ReplacedByItself(body: string, matches: seq<Match>, from: nat, texts: seq<string>)
    requires InOrder(body, matches, from) && |texts| == |matches|
    requires forall i :: 0 <= i < |matches| ==> matches[i].start <= matches[i].end <= |body| && texts[i] == body[matches[i].start..matches[i].end]
    ensures Replaced(body, matches, from, texts) == body[from..]
    decreases matches
  {
    if matches != [] {
      ReplacedByItself(body, matches[1..], matches[0].end, texts[1..]);
      var m := matches[0];
      assert body[m.start..m.end] + body[m.end..] == body[m.start..];
      assert body[from..m.start] + body[m.start..] == body[from..];
      Assoc(body[from..m.start], body[m.start..m.end], body[m.end..]);
    }
  }

  function Braced(text: string): string {
    "{" + text + "}"
  }

  lemma PlaceholderText(body: string, m: Match, text: string)
    requires IsPlaceholder(body, m) && text == "@" + Braced(Inner(body, m))
    ensures text == body[m.start..m.end]
  {
  }

  /** The names are the recipient texts of the placeholders, with their braces. */
  predicate OriginalNames(body: string, accepted: seq<Match>, recipients: seq<Recipient>, name: Recipient -> string) {
    && |recipients| == |accepted|
    && forall i :: 0 <= i < |accepted| ==>
         var m := accepted[i];
         m.start + 3 < m.end <= |body| && name(recipients[i]) == Braced(Inner(body, m))
  }

  lemma OriginalTexts(body: string, parse: Parser, recipients: seq<Recipient>, name: Recipient -> string, i: nat)
    requires OriginalNames(body, Placed(body, parse), recipients, name) && i < |recipients|
    ensures var m := Placed(body, parse)[i];
            m.start <= m.end <= |body| && Names(recipients, name)[i] == body[m.start..m.end]
  {
    FoundPlaceholders(body, 0);
    AcceptedAmong(body, FindAll(body, 0), parse);
    var m := Placed(body, parse)[i];
    assert m in Placed(body, parse);
    PlaceholderText(body, m, Names(recipients, name)[i]);
  }

  lemma EarlyPrintingUndoes(
    body: string, parse: Parser, mentions: seq<Mention>, recipients: seq<Recipient>, name: Recipient -> string)
    requires EarlyPlaceholders(body, parse)
    requires var parsed := ParsedOf(body, parse); IsMentions(mentions, parsed.offsets, parsed.targets)
    requires |recipients| == |mentions| && NOBODY !in recipients
    requires OriginalNames(body, Placed(body, parse), recipients, name)
    ensures Printed(ParsedOf(body, parse).body, StableSorted(Ranges(Starts(mentions), recipients)), 0, name) == body
  {
    PrintingReplaces(body, parse, mentions, recipients, name);
    var accepted, texts := Placed(body, parse), Names(recipients, name);
    forall i | 0 <= i < |accepted|
      ensures accepted[i].start <= accepted[i].end <= |body| && texts[i] == body[accepted[i].start..accepted[i].end]
    {
      OriginalTexts(body, parse, recipients, name, i);
    }
    ReplacedByItself(body, accepted, 0, texts);
  }

  // ----- Placeholders that begin too late -----

  lemma {:induction false} InsertedAmong(sorted: seq<Range>, m: Range)
    ensures forall r :: r in Inserted(sorted, m) ==> r in sorted || r == m
  {
    if sorted != [] && sorted[|sorted| - 1].start > m.start {
      InsertedAmong(sorted[..|sorted| - 1], m);
    }
  }

  lemma {:induction false} SortedAmong(ranges: seq<Range>)
    ensures forall r :: r in StableSorted(ranges) ==> r in ranges
  {
    if ranges != [] {
      SortedAmong(ranges[..|ranges| - 1]);
      InsertedAmong(StableSorted(ranges[..|ranges| - 1]), ranges[|ranges| - 1]);
    }
  }

  lemma UnitsAscend(out: string, p: nat, q: nat)
    requires p < q <= |out|
    ensures Units(out[..p]) < Units(out[..q])
  {
    assert out[..q] == out[..p] + out[p..q];
    UnitsAppend(out[..p], out[p..q]);
    UnitsLength(out[p..q]);
  }

  lemma EndsBefore(out: string, p: nat, r: Range)
    requires p <= |out| && r.start + r.length <= Units(out[..p])
    ensures Boundary(out, r.start + r.length).Some? ==> Boundary(out, r.start + r.length).value <= p
  {
    BoundaryWithin(out, r.start + r.length);
    if Boundary(out, r.start + r.length).Some? {
      var q := Boundary(out, r.start + r.length).value;
      if q > p { UnitsAscend(out, p, q); }
    }
  }

  /** What lies behind all ranges is printed as it is. */
  lemma {:induction false} RestPrinted(out: string, ordered: seq<Range>, last: nat, p: nat, name: Recipient -> string)
    returns (pre: string)
    requires last <= p <= |out| && forall r :: r in ordered ==> r.start + r.length <= Units(out[..p])
    ensures Printed(out, ordered, last, name) == pre + out[p..]
    decreases ordered
  {
    if ordered == [] {
      assert out[last..] == out[last..p] + out[p..];
      return out[last..p];
    }
    var m := ordered[0];
    assert m in ordered;
    EndsBefore(out, p, m);
    if Skipped(out, m, last) {
      pre := RestPrinted(out, ordered[1..], last, p, name);
    } else {
      var start, end := Boundary(out, m.start).value, Boundary(out, m.start + m.length).value;
      BoundaryWithin(out, m.start);
      var more := RestPrinted(out, ordered[1..], end, p, name);
      pre := out[last..start] + Named(m, name) + more;
    }
  }

  lemma {:induction false} LastPosition(pieces: seq<string>, start: nat, tail: string)
    requires pieces != []
    ensures start + |Joined(pieces, Placeholders(|pieces|), tail)| == Positions(pieces, start)[|pieces| - 1] + 1 + |tail|
    decreases pieces
  {
    var out, next := Joined(pieces, Placeholders(|pieces|), tail), start + |pieces[0]| + 1;
    assert out == "" + out;
    var rest := FirstPiece("", pieces, tail, out);
    assert |out| == |pieces[0]| + 1 + |rest|;
    if |pieces| == 1 {
      FirstOffset(pieces, 0, start);
    } else {
      LastPosition(pieces[1..], next, tail);
      NextOffset(pieces, 0, start, |pieces| - 1, Units(pieces[0]) + 1, next);
    }
  }

  lemma {:induction false} TailLength(body: string, matches: seq<Match>, from: nat)
    requires InOrder(body, matches, from) && matches != []
    ensures |Tail(body, matches, from)| == |body| - matches[|matches| - 1].end
    decreases matches
  {
    if |matches| > 1 {
      TailLength(body, matches[1..], matches[0].end);
    }
  }

  lemma ClosingBrace(body: string, parse: Parser, i: nat)
    requires i < |Placed(body, parse)|
    ensures var m := Placed(body, parse)[i]; 0 < m.end <= |body| && body[m.end - 1] == '}'
  {
    FoundPlaceholders(body, 0);
    AcceptedAmong(body, FindAll(body, 0), parse);
    var m := Placed(body, parse)[i];
    assert m in Placed(body, parse) && IsPlaceholder(body, m);
  }

  /** The last placeholder is as far from the end of the rewritten body as its closing brace from that of the body. */
  lemma LastPlaceholder(body: string, parse: Parser) returns (p: nat)
    requires Placed(body, parse) != []
    ensures var parsed, accepted := ParsedOf(body, parse), Placed(body, parse);
            && |parsed.offsets| == |accepted|
            && p < |parsed.body| && parsed.body[p] == OBJECT_REPLACEMENT && Units(parsed.body[..p]) == parsed.offsets[|accepted| - 1]
            && |body| >= |parsed.body| - p && body[|body| - (|parsed.body| - p)] == '}'
  {
    var parsed, accepted := ParsedOf(body, parse), Placed(body, parse);
    var pieces, last := Pieces(body, accepted, 0), |accepted| - 1;
    p := Positions(pieces, 0)[last];
    AllCovered(body, parse);
    ParsedPieces(body, parse);
    assert Covered(parsed.body, parsed.offsets[last], p);
    BoundaryWithin(parsed.body, parsed.offsets[last]);
    LastPosition(pieces, 0, Tail(body, accepted, 0));
    TailLength(body, accepted, 0);
    ClosingBrace(body, parse, last);
  }

  lemma TruncatedEnds(mentions: seq<Mention>, offsets: seq<nat>, targets: seq<Target>, recipients: seq<Recipient>)
    requires IsMentions(mentions, offsets, targets) && |recipients| == |mentions|
    ensures forall r :: r in StableSorted(Ranges(Starts(mentions), recipients)) ==> r.start + r.length <= TWO_TO_THE_32
  {
    var ranges := Ranges(Starts(mentions), recipients);
    SortedAmong(ranges);
    forall r | r in ranges ensures r.start + r.length <= TWO_TO_THE_32 {
      var i :| 0 <= i < |ranges| && ranges[i] == r;
      assert r.start == offsets[i] % TWO_TO_THE_32;
    }
  }

  /** A placeholder that begins too late isn't printed as its name: where the body has its closing brace, the
      text printed still has the character that stands for the last placeholder. */
  lemma LatePrintingFails(
    body: string, parse: Parser, mentions: seq<Mention>, recipients: seq<Recipient>, name: Recipient -> string)
    requires !EarlyPlaceholders(body, parse)
    requires var parsed := ParsedOf(body, parse); IsMentions(mentions, parsed.offsets, parsed.targets)
    requires |recipients| == |mentions|
    ensures Printed(ParsedOf(body, parse).body, StableSorted(Ranges(Starts(mentions), recipients)), 0, name) != body
  {
    var parsed, ranges := ParsedOf(body, parse), Ranges(Starts(mentions), recipients);
    EarlyOffsets(body, parse);
    AllCovered(body, parse);
    var p := LastPlaceholder(body, parse);
    var last := |parsed.offsets| - 1;
    assert parsed.offsets[last] >= TWO_TO_THE_32;
    TruncatedEnds(mentions, parsed.offsets, parsed.targets, recipients);
    var pre := RestPrinted(parsed.body, StableSorted(ranges), 0, p, name);
    assert (pre + parsed.body[p..])[|pre|] == OBJECT_REPLACEMENT;
  }

  /** Printing undoes parsing: with the original {recipient} text as the name of each mention, the original
      body comes back, if and only if fewer than 2^32 code units come before each placeholder. */
  lemma PrintingUndoesParsing(
    body: string, parse: Parser, mentions: seq<Mention>, recipients: seq<Recipient>, name: Recipient -> string)
    requires var parsed := ParsedOf(body, parse); IsMentions(mentions, parsed.offsets, parsed.targets)
    requires |recipients| == |mentions| && NOBODY !in recipients
    requires OriginalNames(body, Placed(body, parse), recipients, name)
    ensures Printed(ParsedOf(body, parse).body, StableSorted(Ranges(Starts(mentions), recipients)), 0, name) == body
            <==> EarlyPlaceholders(body, parse)
  {
    if EarlyPlaceholders(body, parse) {
      EarlyPrintingUndoes(body, parse, mentions, recipients, name);
    } else {
      LatePrintingFails(body, parse, mentions, recipients, name);
    }
  }

  // ----- Bodies of 4 GiB -----

  const SELF_PLACEHOLDER := "@{self}"

  function Filler(n: nat): string {
    seq(n, _ => 'a')
  }

  function FarBody(n: nat): string {
    Filler(n) + SELF_PLACEHOLDER
  }

  lemma FillerUnits(n: nat)
    ensures Units(Filler(n)) == n
  {
    if n > 0 {
      assert Filler(n)[..n - 1] == Filler(n - 1);
      FillerUnits(n - 1);
    }
  }

  lemma {:induction false} FillerSkipped(body: string, n: nat, from: nat)
    requires n <= |body| && from <= n && forall k :: 0 <= k < n ==> body[k] == 'a'
    ensures FindAll(body, from) == FindAll(body, n)
    decreases n - from
  {
    if from < n { FillerSkipped(body, n, from + 1); }
  }

  lemma FarMatch(n: nat, body: string)
    requires body == FarBody(n)
    ensures FindAll(body, 0) == [Match(n, n + 7)] && Inner(body, Match(n, n + 7)) == "self"
  {
    assert body[n + 2..] == "self}";
    assert IndexOf("self}", Ends) == 4;
    assert MatchAt(body, n) == Some(n + 7);
    FillerSkipped(body, n, 0);
    assert FindAll(body, n + 7) == [];
  }

  lemma OneMatch(body: string, m: Match, parse: Parser, out: string)
    requires FindAll(body, 0) == [m] && m.start + 3 < m.end == |body| && parse(Inner(body, m)).Some?
    requires out == body[..m.start] + [OBJECT_REPLACEMENT]
    ensures ParsedOf(body, parse) == Parsed(out, [Units(body[..m.start])], [parse(Inner(body, m)).value])
  {
    FindAllInOrder(body, 0, 0);
    assert body[0..m.start] == body[..m.start] && body[m.end..] == "";
    RewrittenAlong(body, [m], [], 0, 0, parse, body[..m.start], Units(body[..m.start]));
    NoneLeft(body, m.end, Units(body[..m.start]) + 1, parse);
  }

  /** A placeholder after 2^32 or more code units gets a range that doesn't cover it. */
  lemma FarPlaceholderMissed(n: nat, parse: Parser, mentions: seq<Mention>)
    requires n >= TWO_TO_THE_32 && parse("self").Some?
    requires var parsed := ParsedOf(FarBody(n), parse); IsMentions(mentions, parsed.offsets, parsed.targets)
    ensures |mentions| == 1 && mentions[0].start == n % TWO_TO_THE_32 != n
    ensures ParsedOf(FarBody(n), parse).body == Filler(n) + [OBJECT_REPLACEMENT]
    ensures !CoversUnit(Filler(n) + [OBJECT_REPLACEMENT], mentions[0].start, n)
  {
    var filler := Filler(n);
    var body, out := FarBody(n), filler + [OBJECT_REPLACEMENT];
    FarMatch(n, body);
    FillerUnits(n);
    assert body[..n] == filler == out[..n];
    OneMatch(body, Match(n, n + 7), parse, out);
    CoveredAt(out, n);
    CoveredWithin(out, n, mentions[0].start, n);
    CoveredUnit(out, mentions[0].start, n);
  }
}
