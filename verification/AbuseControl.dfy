// The body-limiting middleware and its rule lookup (core/abuse_control.py).
// Messages follow the "Request - receive event" of the ASGI HTTP & WebSocket
// message format.
module AbuseControl {
  import opened Options
  import opened Text

  const MAX_BODY_BYTES: nat := 256_000

  // ---- Rule lookup -----------------------------------------------------------

  datatype Rule = Rule(pathPrefix: string, methods: set<string>, limit: nat, windowSeconds: nat)

  /** prefix.rstrip("/") */
  function RStripSlash(s: string): string {
    if s != "" && s[|s| - 1] == '/' then RStripSlash(s[..|s| - 1]) else s
  }

  function Normalized(prefix: string): string {
    var stripped := RStripSlash(prefix);
    if stripped == "" then "/" else stripped
  }

  /** _path_matches */
  predicate PathMatches(path: string, prefix: string) {
    var normalized := Normalized(prefix);
    path == normalized || normalized + "/" <= path
  }

  /** Main result: the string test is a test on whole path segments. */
  lemma PathMatchesSegments(path: string, prefix: string)
    ensures PathMatches(path, prefix) <==> Segments(Normalized(prefix)) <= Segments(path)
  {
    var n := Normalized(prefix);
    if n + "/" <= path {
      var rest := path[|n| + 1..];
      assert path == n + ['/'] + rest;
      SplitAppend(n, rest, '/');
    }
    if Segments(n) <= Segments(path) {
      var more := Segments(path)[|Segments(n)|..];
      assert Segments(path) == Segments(n) + more;
      JoinSplit(path, '/');
      JoinSplit(n, '/');
      if more == [] {
        assert Segments(path) == Segments(n);
      } else {
        JoinAppend(Segments(n), more, '/');
        assert path == n + "/" + Join(more, '/');
      }
    }
  }

  lemma {:induction false} RStripSlashes(prefix: string, slashes: string)
    requires forall i :: 0 <= i < |slashes| ==> slashes[i] == '/'
    ensures RStripSlash(prefix + slashes) == RStripSlash(prefix)
    decreases |slashes|
  {
    if slashes == "" {
      assert prefix + slashes == prefix;
    } else {
      var n := |slashes| - 1;
      RStripSlashes(prefix, slashes[..n]);
      assert (prefix + slashes)[..|prefix| + n] == prefix + slashes[..n];
    }
  }

  /** Trailing slashes on a rule never matter, and neither does their number. */
  lemma TrailingSlashesIgnored(path: string, prefix: string, slashes: string)
    requires forall i :: 0 <= i < |slashes| ==> slashes[i] == '/'
    ensures PathMatches(path, prefix + slashes) <==> PathMatches(path, prefix)
  {
    RStripSlashes(prefix, slashes);
  }

  /** str.upper() on ASCII, which is all an HTTP method holds. */
  function Upper(s: string): string {
    if s == "" then "" else [if 'a' <= s[0] <= 'z' then s[0] - 'a' + 'A' else s[0]] + Upper(s[1..])
  }

  /** `upper` is `verb` with its letters in upper case. */
  ghost predicate UpperCaseOf(upper: string, verb: string) {
    && |upper| == |verb|
    && forall i :: 0 <= i < |verb| ==>
         if 'a' <= verb[i] <= 'z' then upper[i] as int == verb[i] as int - 32 else upper[i] == verb[i]
  }

  lemma {:induction false} UpperMeaning(verb: string)
    ensures UpperCaseOf(Upper(verb), verb)
    decreases |verb|
  {
    if verb != "" {
      UpperMeaning(verb[1..]);
      forall i | 0 <= i < |verb|
        ensures if 'a' <= verb[i] <= 'z' then Upper(verb)[i] as int == verb[i] as int - 32
                else Upper(verb)[i] == verb[i]
      {
        if i > 0 { assert Upper(verb)[i] == Upper(verb[1..])[i - 1] && verb[i] == verb[1..][i - 1]; }
      }
    }
  }

  lemma UpperCaseUnique(a: string, b: string, verb: string)
    requires UpperCaseOf(a, verb) && UpperCaseOf(b, verb)
    ensures a == b
  {
  }

  /** The rule's prefix without trailing slashes; "/" when nothing else is left. */
  ghost predicate PrefixPath(prefix: string, stem: string) {
    || (stem != "/" && stem != "" && stem[|stem| - 1] != '/' && stem <= prefix
        && forall i :: |stem| <= i < |prefix| ==> prefix[i] == '/')
    || (stem == "/" && forall i :: 0 <= i < |prefix| ==> prefix[i] == '/')
  }

  lemma {:induction false} NormalizedMeaning(prefix: string)
    ensures PrefixPath(prefix, Normalized(prefix))
    decreases |prefix|
  {
    if prefix != "" && prefix[|prefix| - 1] == '/' {
      NormalizedMeaning(prefix[..|prefix| - 1]);
    }
  }

  lemma PrefixPathUnique(prefix: string, a: string, b: string)
    requires PrefixPath(prefix, a) && PrefixPath(prefix, b)
    ensures a == b
  {
  }

  /** A request is for the path or something below it. */
  ghost predicate Covers(prefix: string, path: string) {
    exists stem :: PrefixPath(prefix, stem) && Segments(stem) <= Segments(path)
  }

  /** Main result: the string test is a test on whole path segments of the rule's
      prefix, with or without slashes at its end. */
  lemma PathMatchesMeaning(path: string, prefix: string)
    ensures PathMatches(path, prefix) <==> Covers(prefix, path)
  {
    PathMatchesSegments(path, prefix);
    NormalizedMeaning(prefix);
    if stem :| PrefixPath(prefix, stem) && Segments(stem) <= Segments(path) {
      PrefixPathUnique(prefix, stem, Normalized(prefix));
    }
  }

  /** A rule is for the upper-cased verb and for every path below its prefix. */
  ghost predicate RuleApplies(rule: Rule, path: string, verb: string) {
    && (exists upper :: upper in rule.methods && UpperCaseOf(upper, verb))
    && Covers(rule.pathPrefix, path)
  }

  lemma RuleAppliesMeaning(rule: Rule, path: string, verb: string)
    ensures RuleApplies(rule, path, verb) <==> Upper(verb) in rule.methods && PathMatches(path, rule.pathPrefix)
  {
    UpperMeaning(verb);
    PathMatchesMeaning(path, rule.pathPrefix);
    if upper :| upper in rule.methods && UpperCaseOf(upper, verb) { UpperCaseUnique(upper, Upper(verb), verb); }
  }

  /** The two spellings have the same letters, `other` more of them in upper case. */
  ghost predicate SameLetters(verb: string, other: string) {
    && |other| == |verb|
    && forall i :: 0 <= i < |verb| ==>
         other[i] == verb[i] || ('a' <= verb[i] <= 'z' && other[i] as int == verb[i] as int - 32)
  }

  lemma CaseIgnored(rule: Rule, path: string, verb: string, other: string)
    requires SameLetters(verb, other)
    ensures RuleApplies(rule, path, other) <==> RuleApplies(rule, path, verb)
  {
    UpperMeaning(verb);
    UpperMeaning(other);
    UpperCaseUnique(Upper(verb), Upper(other), verb);
    RuleAppliesMeaning(rule, path, verb);
    RuleAppliesMeaning(rule, path, other);
  }

  /** For a verb without small letters, as the table has them, it is a plain test. */
  lemma PlainVerb(rule: Rule, path: string, verb: string)
    requires forall i :: 0 <= i < |verb| ==> !('a' <= verb[i] <= 'z')
    ensures RuleApplies(rule, path, verb) <==> verb in rule.methods && Covers(rule.pathPrefix, path)
  {
    if upper :| upper in rule.methods && UpperCaseOf(upper, verb) { UpperCaseUnique(upper, verb, verb); }
    assert UpperCaseOf(verb, verb);
  }

  /** The earliest rule of the table that applies to the request, or none. */
  ghost predicate Selected(rules: seq<Rule>, path: string, verb: string, r: Option<nat>) {
    match r
    case None => forall i :: 0 <= i < |rules| ==> !RuleApplies(rules[i], path, verb)
    case Some(k) =>
      && k < |rules| && RuleApplies(rules[k], path, verb)
      && forall i :: 0 <= i < k ==> !RuleApplies(rules[i], path, verb)
  }

  /** So the earliest rule is the same for "post" and "POST", and for "POST" it is the
      first that lists it. */
  lemma VerbSelects(rules: seq<Rule>, path: string, verb: string, other: string, r: Option<nat>)
    requires SameLetters(verb, other) && forall i :: 0 <= i < |other| ==> !('a' <= other[i] <= 'z')
    ensures Selected(rules, path, verb, r) <==> Selected(rules, path, other, r)
    ensures Selected(rules, path, other, r) <==>
            match r
            case None =>
              forall i :: 0 <= i < |rules| ==> !(other in rules[i].methods && Covers(rules[i].pathPrefix, path))
            case Some(k) =>
              && k < |rules| && other in rules[k].methods && Covers(rules[k].pathPrefix, path)
              && forall i :: 0 <= i < k ==> !(other in rules[i].methods && Covers(rules[i].pathPrefix, path))
  {
    forall i | 0 <= i < |rules|
      ensures RuleApplies(rules[i], path, verb) <==> RuleApplies(rules[i], path, other)
      ensures RuleApplies(rules[i], path, other)
         <==> other in rules[i].methods && Covers(rules[i].pathPrefix, path)
    {
      CaseIgnored(rules[i], path, verb, other);
      PlainVerb(rules[i], path, other);
    }
  }

  /** match_rule */
  method MatchRule(rules: seq<Rule>, path: string, verb: string) returns (r: Option<nat>)
    ensures Selected(rules, path, verb, r)
  {
    var upper := Upper(verb);
    for i := 0 to |rules|
      invariant forall j :: 0 <= j < i ==> !RuleApplies(rules[j], path, verb)
    {
      RuleAppliesMeaning(rules[i], path, verb);
      if upper in rules[i].methods && PathMatches(path, rules[i].pathPrefix) {
        return Some(i);
      }
    }
    return None;
  }

  // ---- Buffering -------------------------------------------------------------

  /** An ASGI message: a piece of the request body, or anything else (a disconnect). */
  datatype Message = HttpRequest(body: seq<bv8>, moreBody: bool) | Other(kind: string)

  function Size(m: Message): nat { if m.HttpRequest? then |m.body| else 0 }

  function BytesOf(messages: seq<Message>): nat {
    if messages == [] then 0 else BytesOf(messages[..|messages| - 1]) + Size(messages[|messages| - 1])
  }

  lemma BytesOfNext(messages: seq<Message>, n: nat)
    requires n < |messages|
    ensures messages[..n + 1] == messages[..n] + [messages[n]]
    ensures BytesOf(messages[..n + 1]) == BytesOf(messages[..n]) + Size(messages[n])
  {
    assert messages[..n + 1][..n] == messages[..n];
  }

  lemma {:induction false} BytesGrow(messages: seq<Message>, k: nat)
    requires k <= |messages|
    ensures BytesOf(messages[..k]) <= BytesOf(messages)
    decreases |messages|
  {
    if k == |messages| {
      assert messages[..k] == messages;
    } else {
      var n := |messages| - 1;
      BytesGrow(messages[..n], k);
      assert messages[..n][..k] == messages[..k];
    }
  }

  /** A message after which the loop stops reading. */
  predicate Final(m: Message): (r: bool)
    ensures m.Other? ==> r
    ensures m.HttpRequest? ==> (r <==> !m.moreBody)
  {
    m.Other? || !m.moreBody
  }

  /** The server's side of `receive`: the messages that have arrived so far, and
      how many have been taken. More may arrive at any time. */
  class LiveReceive {
    var arrived: seq<Message>
    var taken: nat

    ghost predicate Valid() reads this { taken <= |arrived| }

    constructor (messages: seq<Message>)
      ensures Valid() && arrived == messages && taken == 0
    {
      arrived, taken := messages, 0;
    }

    /** Suspended callers get nothing until something arrives. */
    method Receive() returns (m: Option<Message>)
      requires Valid()
      modifies this`taken
      ensures Valid()
      ensures old(taken) < |arrived| ==> m == Some(arrived[old(taken)]) && taken == old(taken) + 1
      ensures old(taken) == |arrived| ==> m == None && taken == old(taken)
    {
      if taken == |arrived| {
        return None;
      }
      m := Some(arrived[taken]);
      taken := taken + 1;
    }

    method Arrive(m: Message)
      requires Valid()
      modifies this`arrived
      ensures Valid() && arrived == old(arrived) + [m]
    {
      arrived := arrived + [m];
    }

    method ArriveAll(messages: seq<Message>)
      requires Valid()
      modifies this`arrived
      ensures Valid() && arrived == old(arrived) + messages
    {
      for j := 0 to |messages|
        invariant Valid() && arrived == old(arrived) + messages[..j]
      {
        Arrive(messages[j]);
      }
    }
  }

  /** What the buffering loop comes to: it still waits, it answers 413, or it
      hands over to the wrapped app. */
  datatype Buffering = Waiting | TooLarge | StartApp(buffered: seq<Message>)

  /** The number of messages the loop would take to the first final one. */
  ghost predicate StopsAt(messages: seq<Message>, n: nat) {
    0 < n <= |messages| && Final(messages[n - 1]) && forall i :: 0 <= i < n - 1 ==> !Final(messages[i])
  }

  /** The first message that takes the total over the limit, if it comes before
      reading stops. */
  ghost predicate OverflowsAt(messages: seq<Message>, n: nat) {
    && 0 < n <= |messages|
    && BytesOf(messages[..n]) > MAX_BODY_BYTES && BytesOf(messages[..n - 1]) <= MAX_BODY_BYTES
    && forall i :: 0 <= i < n - 1 ==> !Final(messages[i])
  }

  /** After n messages the loop has met neither a final message nor too many bytes. */
  ghost predicate ReadsOn(messages: seq<Message>, n: nat) {
    n <= |messages| && BytesOf(messages[..n]) <= MAX_BODY_BYTES && forall i :: 0 <= i < n ==> !Final(messages[i])
  }

  /** What the next message makes of that. */
  lemma ReadNext(messages: seq<Message>, n: nat)
    requires n < |messages| && ReadsOn(messages, n)
    ensures messages[..n + 1] == messages[..n] + [messages[n]]
    ensures var bytes := BytesOf(messages[..n]) + Size(messages[n]);
            && BytesOf(messages[..n + 1]) == bytes
            && (Final(messages[n]) ==> StopsAt(messages, n + 1))
            && (bytes > MAX_BODY_BYTES ==> OverflowsAt(messages, n + 1))
            && (!Final(messages[n]) && bytes <= MAX_BODY_BYTES ==> ReadsOn(messages, n + 1))
  {
    BytesOfNext(messages, n);
  }

  /** Lines 58-71. Whatever the request's Content-Length claimed, the app is
      started only with a body whose every byte was counted and allowed, and only
      the messages in the buffer have been taken from the server. */
  method BufferBody(receive: LiveReceive) returns (r: Buffering)
    requires receive.Valid() && receive.taken == 0
    modifies receive`taken
    ensures receive.Valid()
    ensures match r
            case StartApp(buffered) =>
              && receive.taken == |buffered| && buffered == receive.arrived[..|buffered|]
              && StopsAt(receive.arrived, |buffered|) && BytesOf(buffered) <= MAX_BODY_BYTES
            case TooLarge => OverflowsAt(receive.arrived, receive.taken)
            case Waiting =>
              && receive.taken == |receive.arrived|
              && BytesOf(receive.arrived) <= MAX_BODY_BYTES
              && forall i :: 0 <= i < |receive.arrived| ==> !Final(receive.arrived[i])
  {
    var buffered: seq<Message> := [];
    var total := 0;
    var moreBody := true;
    ghost var stream := receive.arrived;
    while moreBody
      invariant receive.Valid() && receive.taken == |buffered| && buffered == stream[..|buffered|]
      invariant total == BytesOf(buffered) <= MAX_BODY_BYTES
      invariant if moreBody then ReadsOn(stream, |buffered|) else StopsAt(stream, |buffered|)
      decreases moreBody, |stream| - receive.taken
    {
      var next := receive.Receive();
      if next.None? {
        assert stream[..|stream|] == stream;
        return Waiting;
      }
      var message := next.value;
      ReadNext(stream, |buffered|);
      if message.Other? {
        buffered := buffered + [message];
        break;
      }
      total := total + |message.body|;
      if total > MAX_BODY_BYTES {
        return TooLarge;
      }
      buffered := buffered + [message];
      moreBody := message.moreBody;
    }
    return StartApp(buffered);
  }

  /** The three outcomes exclude each other: each stream has one. */
  lemma OneOutcome(messages: seq<Message>, n: nat, k: nat)
    requires OverflowsAt(messages, n) && StopsAt(messages, k)
    ensures BytesOf(messages[..k]) > MAX_BODY_BYTES
  {
    if n <= k {
      BytesGrow(messages[..k], n);
      assert messages[..k][..n] == messages[..n];
    } else {
      assert false;
    }
  }

  /** What has been decided stays decided when more messages arrive. */
  lemma DecisionsAreStable(messages: seq<Message>, more: seq<Message>, n: nat)
    ensures StopsAt(messages, n) ==> StopsAt(messages + more, n) && (messages + more)[..n] == messages[..n]
    ensures OverflowsAt(messages, n) ==> OverflowsAt(messages + more, n)
  {
    if 0 < n <= |messages| {
      assert (messages + more)[..n] == messages[..n];
      assert (messages + more)[..n - 1] == messages[..n - 1];
    }
  }

  lemma {:induction false} DecidesFrom(messages: seq<Message>, k: nat) returns (n: nat)
    requires |messages| > MAX_BODY_BYTES && k <= MAX_BODY_BYTES
    requires forall i :: 0 <= i < |messages| && !Final(messages[i]) ==> |messages[i].body| >= 1
    requires forall i :: 0 <= i < k ==> !Final(messages[i])
    requires k <= BytesOf(messages[..k]) <= MAX_BODY_BYTES
    ensures n <= MAX_BODY_BYTES + 1 && (StopsAt(messages, n) || OverflowsAt(messages, n))
    decreases MAX_BODY_BYTES - k
  {
    n := k + 1;
    assert messages[..n][..k] == messages[..k];
    if !Final(messages[k]) && BytesOf(messages[..n]) <= MAX_BODY_BYTES {
      n := DecidesFrom(messages, n);
    }
  }

  /** If every piece that announces another one carries at least a byte, reading
      stops, one way or the other, within 256001 messages. */
  lemma ReadingStops(messages: seq<Message>) returns (n: nat)
    requires |messages| >= 256_001
    requires forall i :: 0 <= i < |messages| && !Final(messages[i]) ==> |messages[i].body| >= 1
    ensures n <= 256_001 && (StopsAt(messages, n) || OverflowsAt(messages, n))
  {
    n := DecidesFrom(messages, 0);
  }

  /** So a request is waited for only while fewer messages than that have arrived. */
  lemma WaitingIsBounded(messages: seq<Message>)
    requires ReadsOn(messages, |messages|)
    requires forall i :: 0 <= i < |messages| && !Final(messages[i]) ==> |messages[i].body| >= 1
    ensures |messages| <= 256_000
  {
    assert messages[..|messages|] == messages;
    if |messages| >= 256_001 {
      var n := ReadingStops(messages);
      BytesGrow(messages, n);
      assert false;
    }
  }

  // ---- Replay ----------------------------------------------------------------

  /** replay_receive: the closure over the buffer, its index and the live receive. */
  class ReplayReceive {
    var buffered: seq<Message>
    var index: nat
    var receive: LiveReceive

    ghost predicate Valid()
      reads this, receive
    {
      && receive.Valid() && index <= |buffered| <= receive.taken
      && buffered == receive.arrived[..|buffered|]
      && (index < |buffered| ==> receive.taken == |buffered|)
    }

    /** How many messages the app has received. */
    ghost function Delivered(): nat
      reads this, receive
    {
      if index < |buffered| then index else receive.taken
    }

    constructor (messages: seq<Message>, live: LiveReceive)
      requires live.Valid() && live.taken == |messages| && messages == live.arrived[..|messages|]
      ensures Valid() && Delivered() == 0 && receive == live && buffered == messages
    {
      buffered, index, receive := messages, 0, live;
    }

    /** The next message of the original stream, whichever side it comes from. */
    method Receive() returns (m: Option<Message>)
      requires Valid()
      modifies this`index, receive`taken
      ensures Valid()
      ensures old(Delivered()) < |receive.arrived|
          ==> m == Some(receive.arrived[old(Delivered())]) && Delivered() == old(Delivered()) + 1
      ensures old(Delivered()) == |receive.arrived| ==> m == None && Delivered() == old(Delivered())
      ensures old(Delivered()) <= |receive.arrived|
    {
      if index < |buffered| {
        m := Some(buffered[index]);
        index := index + 1;
        return;
      }
      m := receive.Receive();
    }
  }

  function Concat(arrivals: seq<seq<Message>>): seq<Message> {
    if arrivals == [] then [] else Concat(arrivals[..|arrivals| - 1]) + arrivals[|arrivals| - 1]
  }

  /** How many of an app's requests for a message are answered when `arrivals[i]`
      comes in before request i and `present` messages were there to begin with:
      each that finds a message not yet delivered. */
  function Answered(present: nat, arrivals: seq<seq<Message>>): nat {
    if arrivals == [] then 0 else
    var before := Answered(present, arrivals[..|arrivals| - 1]);
    if before < present + |Concat(arrivals)| then before + 1 else before
  }

  /** The messages that have come in by request i. */
  function ArrivedBy(present: nat, arrivals: seq<seq<Message>>, i: nat): nat
    requires i < |arrivals|
  {
    present + |Concat(arrivals[..i + 1])|
  }

  lemma ArrivedByInit(present: nat, arrivals: seq<seq<Message>>, i: nat)
    requires i + 1 < |arrivals|
    ensures ArrivedBy(present, arrivals[..|arrivals| - 1], i) == ArrivedBy(present, arrivals, i)
  {
    assert arrivals[..|arrivals| - 1][..i + 1] == arrivals[..i + 1];
  }

  lemma {:induction false} AnsweredAtMostArrived(present: nat, arrivals: seq<seq<Message>>)
    ensures Answered(present, arrivals) <= present + |Concat(arrivals)|
    decreases |arrivals|
  {
    if arrivals != [] {
      AnsweredAtMostArrived(present, arrivals[..|arrivals| - 1]);
    }
  }

  /** No request goes unanswered for any other reason than want of messages: all are
      answered, or all since some request i, which left none undelivered. And more
      than that can never be answered. */
  lemma {:induction false} AnsweredMeaning(present: nat, arrivals: seq<seq<Message>>)
    ensures Answered(present, arrivals) <= |arrivals|
    ensures forall i :: 0 <= i < |arrivals|
              ==> Answered(present, arrivals) <= ArrivedBy(present, arrivals, i) + (|arrivals| - 1 - i)
    ensures Answered(present, arrivals) == |arrivals|
         || exists i :: 0 <= i < |arrivals|
              && Answered(present, arrivals) == ArrivedBy(present, arrivals, i) + (|arrivals| - 1 - i)
    decreases |arrivals|
  {
    if arrivals != [] {
      var n := |arrivals| - 1;
      var init := arrivals[..n];
      AnsweredMeaning(present, init);
      assert arrivals[..n + 1] == arrivals;
      forall i | 0 <= i < n ensures ArrivedBy(present, init, i) == ArrivedBy(present, arrivals, i) {
        ArrivedByInit(present, arrivals, i);
      }
      if Answered(present, arrivals) == Answered(present, init) {
        assert Answered(present, arrivals) >= ArrivedBy(present, arrivals, n);
        AnsweredAtMostArrived(present, arrivals);
      } else if Answered(present, init) != n {
        var i :| 0 <= i < n && Answered(present, init) == ArrivedBy(present, init, i) + (n - 1 - i);
        assert Answered(present, arrivals) == ArrivedBy(present, arrivals, i) + (n - i);
      }
    }
  }

  /** One request of the app for a message, after `arriving` has come in. */
  method Read(replay: ReplayReceive, arriving: seq<Message>, got: seq<Message>) returns (now: seq<Message>)
    requires replay.Valid() && |got| == replay.Delivered() && got <= replay.receive.arrived
    modifies replay`index, replay.receive
    ensures replay.Valid() && replay.receive == old(replay.receive)
    ensures replay.receive.arrived == old(replay.receive.arrived) + arriving
    ensures |now| == replay.Delivered() && now <= replay.receive.arrived
    ensures |now| == if |got| < |replay.receive.arrived| then |got| + 1 else |got|
  {
    replay.receive.ArriveAll(arriving);
    var m := replay.Receive();
    return if m.None? then got else got + [m.value];
  }

  /** Main result: however many messages the app asks for, and whatever arrives
      between its requests, it has received exactly the first messages of the
      stream, in order, as if nothing had been buffered; a request stays
      unanswered only when the whole stream so far has been delivered. */
  method AppReads(replay: ReplayReceive, arrivals: seq<seq<Message>>) returns (got: seq<Message>, unanswered: nat)
    requires replay.Valid() && replay.Delivered() == 0
    modifies replay`index, replay.receive
    ensures replay.Valid() && replay.receive == old(replay.receive)
    ensures replay.receive.arrived == old(replay.receive.arrived) + Concat(arrivals)
    ensures got <= replay.receive.arrived && |got| == replay.Delivered()
    ensures |got| == Answered(|old(replay.receive.arrived)|, arrivals)
    ensures |got| + unanswered == |arrivals|
  {
    got, unanswered := [], 0;
    ghost var live, before := replay.receive, replay.receive.arrived;
    for i := 0 to |arrivals|
      invariant replay.Valid() && replay.receive == live
      invariant live.arrived == before + Concat(arrivals[..i])
      invariant |got| == replay.Delivered() && got <= live.arrived
      invariant |got| == Answered(|before|, arrivals[..i]) && |got| + unanswered == i
    {
      assert arrivals[..i + 1][..i] == arrivals[..i];
      var now := Read(replay, arrivals[i], got);
      if |now| == |got| {
        unanswered := unanswered + 1;
      }
      got := now;
    }
    assert arrivals[..|arrivals|] == arrivals;
  }

  // ---- The whole middleware --------------------------------------------------

  /** The Content-Length header: absent, not a number to Python's int(), or an integer. */
  datatype ContentLength = Missing | NotANumber | Number(value: int)

  /** _content_length_rejected */
  predicate ContentLengthRejected(c: ContentLength): (r: bool)
    ensures c.Missing? ==> !r
    ensures c.NotANumber? ==> r
    ensures c.Number? ==> (r <==> c.value >= 256_001)
  {
    c.NotANumber? || (c.Number? && c.value > MAX_BODY_BYTES)
  }

  datatype Scope = Scope(isHttp: bool, contentLength: ContentLength, path: string, verb: string)

  /** What __call__ does with a request: pass it through untouched, answer 413 or
      429, wait for more body, or call the app with a replaying receive. */
  datatype Reply = PassThrough | Answer413 | Answer429 | Pending | CallApp(rule: Option<nat>)

  /** AbuseControlMiddleware.__call__. `allows` is the rate-limit store's verdict. */
  method Call(rules: seq<Rule>, scope: Scope, receive: LiveReceive, allows: seq<bool>)
    returns (r: Reply, replay: ReplayReceive?)
    requires receive.Valid() && receive.taken == 0 && |allows| == |rules|
    modifies receive`taken
    ensures receive.arrived == old(receive.arrived)
    ensures r.PassThrough? <==> !scope.isHttp
    ensures !scope.isHttp || ContentLengthRejected(scope.contentLength) || r.Answer429? ==> receive.taken == 0
    ensures scope.isHttp && ContentLengthRejected(scope.contentLength) ==> r == Answer413
    ensures r.Answer429? <==> (scope.isHttp && !ContentLengthRejected(scope.contentLength)
                               && exists i: nat :: Selected(rules, scope.path, scope.verb, Some(i)) && !allows[i])
    ensures r.Answer413? && !ContentLengthRejected(scope.contentLength) ==> OverflowsAt(receive.arrived, receive.taken)
    ensures r.CallApp? <==> replay != null
    ensures r.CallApp? ==>
      && replay.Valid() && replay.Delivered() == 0 && replay.receive == receive
      && StopsAt(receive.arrived, receive.taken) && BytesOf(receive.arrived[..receive.taken]) <= MAX_BODY_BYTES
      && !ContentLengthRejected(scope.contentLength)
      && Selected(rules, scope.path, scope.verb, r.rule) && (r.rule.Some? ==> allows[r.rule.value])
    ensures r.Pending? ==> receive.taken == |receive.arrived| && ReadsOn(receive.arrived, receive.taken)
  {
    replay := null;
    if !scope.isHttp {
      return PassThrough, null;
    }
    if ContentLengthRejected(scope.contentLength) {
      return Answer413, null;
    }
    var rule := MatchRule(rules, scope.path, scope.verb);
    assert forall i: nat :: Selected(rules, scope.path, scope.verb, Some(i)) ==> rule == Some(i);
    if rule.Some? && !allows[rule.value] {
      return Answer429, null;
    }
    var body := BufferBody(receive);
    match body
    case Waiting =>
      assert receive.arrived[..|receive.arrived|] == receive.arrived;
      return Pending, null;
    case TooLarge => return Answer413, null;
    case StartApp(buffered) =>
      replay := new ReplayReceive(buffered, receive);
      return CallApp(rule), replay;
  }
}
