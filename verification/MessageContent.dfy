/** Resolving the mentions and the quote of an outgoing message in one batch (internal/app/content.go). */
module MessageContent {
  import opened Wrappers
  import opened Recipients
  import opened Mentions

  /** The author and timestamp a quote argument names; None if it is invalid or names a group. */
  type QuoteParser = string -> Option<(Target, nat)>

  datatype Quote = Quote(author: Recipient, timestamp: nat, text: string, mentions: seq<Range>)

  datatype Content = Content(body: string, mentions: seq<Range>, quote: Option<Quote>)

  datatype ContentError = InvalidQuote | NotResolved

  ghost predicate NamesUsers(parse: Parser, parseQuote: QuoteParser) {
    && (forall s :: parse(s).Some? ==> !IsGroup(parse(s).value))
    && forall s :: parseQuote(s).Some? ==> !IsGroup(parseQuote(s).value.0)
  }

  function TargetsIn(mentions: seq<Mention>): seq<Target> {
    seq(|mentions|, i requires 0 <= i < |mentions| => mentions[i].target)
  }

  /** A range per mention, for the target at the same place. */
  method ResolvedMentions(found: seq<Mention>, targets: seq<Target>) returns (mentions: seq<Range>)
    requires |found| <= |targets|
    ensures |mentions| == |found|
    ensures forall i :: 0 <= i < |found| ==> mentions[i] == Range(found[i].start, 1, targets[i].recipient)
  {
    mentions := [];
    for i := 0 to |found|
      invariant |mentions| == i && forall k :: 0 <= k < i ==> mentions[k] == Range(found[k].start, 1, targets[k].recipient)
    {
      mentions := mentions + [Range(found[i].start, 1, targets[i].recipient)];
    }
  }

  /** The mentions of a text by themselves: a range per placeholder, for the user its own text names. */
  ghost predicate MentionsOf(text: string, parse: Parser, service: Service, mentions: seq<Range>) {
    var parsed, placed := ParsedOf(text, parse), Placed(text, parse);
    && |mentions| == |placed| == |parsed.offsets|
    && (placed != [] ==> service.account.Some?)
    && forall i :: 0 <= i < |mentions| ==>
         && placed[i].start + 3 < placed[i].end <= |text|
         && var target := parse(Inner(text, placed[i]));
            target.Some? && mentions[i] ==
              Range(parsed.offsets[i] % TWO_TO_THE_32, 1, Resolved(target.value, service.account.value, service.lookup).recipient)
  }

  lemma ResolvedByPlace(text: string, parse: Parser, service: Service, found: seq<Mention>, targets: seq<Target>, mentions: seq<Range>)
    requires IsMentions(found, ParsedOf(text, parse).offsets, ParsedOf(text, parse).targets)
    requires found != [] ==> service.account.Some?
    requires |targets| == |found| == |mentions|
    requires forall i :: 0 <= i < |found| ==>
               && targets[i] == Resolved(found[i].target, service.account.value, service.lookup)
               && mentions[i] == Range(found[i].start, 1, targets[i].recipient)
    ensures MentionsOf(text, parse, service, mentions)
  {
    ParsedPieces(text, parse);
  }

  lemma MentionsNameUsers(text: string, parse: Parser, parseQuote: QuoteParser, found: seq<Mention>)
    requires NamesUsers(parse, parseQuote)
    requires IsMentions(found, ParsedOf(text, parse).offsets, ParsedOf(text, parse).targets)
    ensures forall i :: 0 <= i < |found| ==> !IsGroup(found[i].target)
  {
    ParsedPieces(text, parse);
  }

  /** Without the account, or when the lookup of the unknown users fails, nobody is resolved. */
  predicate Unresolvable(all: seq<Target>, service: Service) {
    service.account.None? || (var asked := Lookup(all, service.account.value); asked != [] && service.lookupFails(asked))
  }

  /** Everybody a message mentions, its quote mentions and the quote's author, in this order. */
  function Everybody(body: string, quoteText: string, quote: string, parse: Parser, parseQuote: QuoteParser): seq<Target> {
    ParsedOf(body, parse).targets + ParsedOf(quoteText, parse).targets
    + if quote != "" && parseQuote(quote).Some? then [parseQuote(quote).value.0] else []
  }

  lemma TargetsOfMentions(mentions: seq<Mention>, offsets: seq<nat>, targets: seq<Target>)
    requires IsMentions(mentions, offsets, targets)
    ensures TargetsIn(mentions) == targets
  {
  }

  /** One batch of users. */
  method ResolveAll(all: seq<Target>, service: Service) returns (resolved: Option<seq<Target>>)
    requires all != [] && forall i :: 0 <= i < |all| ==> !IsGroup(all[i])
    ensures resolved.Some? ==>
              && service.account.Some? && |resolved.value| == |all|
              && forall i :: 0 <= i < |all| ==> resolved.value[i] == Resolved(all[i], service.account.value, service.lookup)
    ensures resolved.None? <==> Unresolvable(all, service)
  {
    var targets := new Target[|all|](i requires 0 <= i < |all| => all[i]);
    assert targets[..] == all;
    assert targets[0] == all[0];
    var ok := ResolveUsers(targets, service);
    if !ok {
      return None;
    }
    resolved := Some(targets[..]);
  }

  /** The mentions of a text whose targets are a stretch of the resolved ones. */
  method MentionsFor(text: string, parse: Parser, service: Service, found: seq<Mention>, targets: seq<Target>)
    returns (mentions: seq<Range>)
    requires IsMentions(found, ParsedOf(text, parse).offsets, ParsedOf(text, parse).targets)
    requires service.account.Some? && |found| <= |targets|
    requires forall i :: 0 <= i < |found| ==> targets[i] == Resolved(found[i].target, service.account.value, service.lookup)
    ensures MentionsOf(text, parse, service, mentions)
  {
    mentions := ResolvedMentions(found, targets);
    ResolvedByPlace(text, parse, service, found, targets[..|found|], mentions);
  }

  /** The quote a message should have. */
  ghost predicate QuoteOf(quoteText: string, author: (Target, nat), parse: Parser, service: Service, made: Quote) {
    && service.account.Some?
    && made.author == Resolved(author.0, service.account.value, service.lookup).recipient
    && made.timestamp == author.1 && made.text == ParsedOf(quoteText, parse).body
    && MentionsOf(quoteText, parse, service, made.mentions)
  }

  /** Looks up everybody the message mentions and quotes at once. Every mention keeps the user of its own
      placeholder, and the quote its author. */
  method ResolveContent(body: string, quoteText: string, quote: string, parse: Parser, parseQuote: QuoteParser, service: Service)
    returns (res: Result<Content, ContentError>)
    requires NamesUsers(parse, parseQuote)
    ensures res == Err(InvalidQuote) <==> quote != "" && parseQuote(quote).None?
    ensures res == Err(NotResolved) <==>
              && (quote == "" || parseQuote(quote).Some?)
              && var all := Everybody(body, quoteText, quote, parse, parseQuote); all != [] && Unresolvable(all, service)
    ensures res.Ok? ==> res.value.body == ParsedOf(body, parse).body && MentionsOf(body, parse, service, res.value.mentions)
    ensures res.Ok? ==> (res.value.quote.Some? <==> quote != "")
    ensures res.Ok? && quote != "" ==> QuoteOf(quoteText, parseQuote(quote).value, parse, service, res.value.quote.value)
  {
    var rewritten, found := ParseMentions(body, parse);
    var quoted, quoteFound := ParseMentions(quoteText, parse);
    MentionsNameUsers(body, parse, parseQuote, found);
    MentionsNameUsers(quoteText, parse, parseQuote, quoteFound);
    TargetsOfMentions(found, ParsedOf(body, parse).offsets, ParsedOf(body, parse).targets);
    TargetsOfMentions(quoteFound, ParsedOf(quoteText, parse).offsets, ParsedOf(quoteText, parse).targets);
    var all := TargetsIn(found) + TargetsIn(quoteFound);
    if quote != "" {
      if parseQuote(quote).None? {
        return Err(InvalidQuote);
      }
      all := all + [parseQuote(quote).value.0];
    }
    assert all == Everybody(body, quoteText, quote, parse, parseQuote);
    if all == [] {
      NoMentions(body, parse, service, found);
      return Ok(Content(rewritten, [], None));
    }
    var targets := ResolveAll(all, service);
    if targets.None? {
      return Err(NotResolved);
    }
    var resolved := targets.value;
    var mentions := MentionsFor(body, parse, service, found, resolved);
    if quote == "" {
      return Ok(Content(rewritten, mentions, None));
    }
    var quoteMentions := MentionsFor(quoteText, parse, service, quoteFound, resolved[|found|..]);
    var author := parseQuote(quote).value;
    res := Ok(Content(rewritten, mentions, Some(Quote(resolved[|resolved| - 1].recipient, author.1, quoted, quoteMentions))));
  }

  lemma NoMentions(text: string, parse: Parser, service: Service, found: seq<Mention>)
    requires IsMentions(found, ParsedOf(text, parse).offsets, ParsedOf(text, parse).targets) && |found| == 0
    ensures MentionsOf(text, parse, service, [])
  {
    ParsedPieces(text, parse);
  }
}
