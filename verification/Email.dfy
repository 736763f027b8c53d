/** email/client.go: the message that is submitted, the recipients that were accepted, and when a
    failed submission may be repeated. */
module Email {
  import opened Decimal
  import opened Environment
  import opened Sequences
  import opened Text

  // ----- The raw message -----

  const CRLF := "\r\n"

  predicate SingleLine(s: string) {
    '\r' !in s && '\n' !in s
  }

  function HeaderLines(from: string, to: seq<string>, subject: string, messageID: string, date: string): seq<string> {
    ["From: " + from, "To: " + Join(to, ", "), "Subject: " + subject, "Message-ID: <" + messageID + ">", "Date: " + date,
     "MIME-Version: 1.0", "Content-Type: text/plain; charset=utf-8", "Content-Transfer-Encoding: 8bit"]
  }

  /** Header lines, an empty line, the body. */
  function Message(lines: seq<string>, body: string): string {
    if lines == [] then CRLF + body else lines[0] + CRLF + Message(lines[1..], body)
  }

  lemma FourMore(start: string, a: string, b: string, c: string, d: string, body: string)
    ensures start + (a + CRLF) + (b + CRLF) + (c + CRLF) + (d + CRLF) + CRLF + body
         == start + Message([a, b, c, d] + [], body)
  {
    FourLines(a, b, c, d, [], body);
    var w, x, y, z := a + CRLF, b + CRLF, c + CRLF, d + CRLF;
    var four := w + x + y + z;
    Concatenated(start, w, x);
    Concatenated(start, w + x, y);
    Concatenated(start, w + x + y, z);
    Concatenated(start + four, CRLF, body);
    Concatenated(start, four, CRLF + body);
  }

  lemma FourLines(a: string, b: string, c: string, d: string, rest: seq<string>, body: string)
    ensures Message([a, b, c, d] + rest, body) == (a + CRLF) + (b + CRLF) + (c + CRLF) + (d + CRLF) + Message(rest, body)
  {
    var lines := [a, b, c, d] + rest;
    var tail := Message(rest, body);
    assert lines[1..][1..][1..][1..] == rest;
    assert lines[1..][0] == b && lines[1..][1..][0] == c && lines[1..][1..][1..][0] == d;
    var w, x, y, z := a + CRLF, b + CRLF, c + CRLF, d + CRLF;
    assert Message(lines[1..][1..], body) == y + (z + tail);
    Concatenated(y, z, tail);
    Concatenated(x, y + z, tail);
    Concatenated(w, x + (y + z), tail);
    Concatenated(x, y, z);
    Concatenated(w, x + y, z);
    Concatenated(w, x, y);
  }

  lemma EightLines(a: string, b: string, c: string, d: string, e: string, f: string, g: string, h: string, body: string)
    ensures (a + CRLF) + (b + CRLF) + (c + CRLF) + (d + CRLF) + (e + CRLF) + (f + CRLF) + (g + CRLF) + (h + CRLF)
         + CRLF + body == Message([a, b, c, d, e, f, g, h], body)
  {
    var lines := [a, b, c, d, e, f, g, h];
    var four := (a + CRLF) + (b + CRLF) + (c + CRLF) + (d + CRLF);
    FourLines(a, b, c, d, lines[4..], body);
    assert lines == [a, b, c, d] + lines[4..];
    FourMore(four, e, f, g, h, body);
    assert lines[4..] == [e, f, g, h] + [];
  }

  /** buildRawMessage's writes, one after the other. */
  method BuildRawMessage(from: string, to: seq<string>, subject: string, body: string, messageID: string, date: string)
    returns (raw: string)
    ensures raw == Message(HeaderLines(from, to, subject, messageID, date), body)
  {
    raw := "From: " + from + CRLF;
    raw := raw + ("To: " + Join(to, ", ") + CRLF);
    raw := raw + ("Subject: " + subject + CRLF);
    raw := raw + ("Message-ID: <" + messageID + ">" + CRLF);
    raw := raw + ("Date: " + date + CRLF);
    raw := raw + ("MIME-Version: 1.0" + CRLF);
    raw := raw + ("Content-Type: text/plain; charset=utf-8" + CRLF);
    raw := raw + ("Content-Transfer-Encoding: 8bit" + CRLF);
    raw := raw + CRLF;
    raw := raw + body;
    EightLines("From: " + from, "To: " + Join(to, ", "), "Subject: " + subject, "Message-ID: <" + messageID + ">",
               "Date: " + date, "MIME-Version: 1.0", "Content-Type: text/plain; charset=utf-8",
               "Content-Transfer-Encoding: 8bit", body);
  }

  /** The first place where a carriage return is followed by a line feed; the length if none. */
  function FirstBreak(s: string): (i: nat)
    ensures i <= |s| && (i < |s| ==> i + 1 < |s| && s[i] == '\r' && s[i + 1] == '\n')
  {
    if |s| < 2 then |s|
    else if s[0] == '\r' && s[1] == '\n' then 0
    else 1 + FirstBreak(s[1..])
  }

  /** Lines as section 2.1 of RFC 5322 ends them: header lines up to the first empty one, and the
      rest as it stands. */
  function ReadMessage(text: string): Option<(seq<string>, string)>
    decreases |text|
  {
    var i := FirstBreak(text);
    if i == |text| then None
    else if i == 0 then Some(([], text[2..]))
    else
      match ReadMessage(text[i + 2..])
      case None => None
      case Some((lines, body)) => Some(([text[..i]] + lines, body))
  }

  lemma {:induction false} BreakAfter(line: string, rest: string)
    requires '\r' !in line
    ensures FirstBreak(line + CRLF + rest) == |line|
  {
    var text := line + CRLF + rest;
    if line != "" {
      assert text[0] == line[0] && line[0] in line;
      BreakAfter(line[1..], rest);
      assert text[1..] == line[1..] + CRLF + rest;
    }
  }

  lemma {:induction false} MessageReads(lines: seq<string>, body: string)
    requires forall i :: 0 <= i < |lines| ==> HeaderLine(lines[i])
    ensures ReadMessage(Message(lines, body)) == Some((lines, body))
  {
    var text := Message(lines, body);
    if lines == [] {
      BreakAfter("", body);
      assert "" + CRLF + body == text && text[2..] == body;
    } else {
      MessageReads(lines[1..], body);
      LineReads(lines[0], Message(lines[1..], body), lines[1..], body);
      assert lines == [lines[0]] + lines[1..];
    }
  }

  lemma LineReads(line: string, rest: string, lines: seq<string>, body: string)
    requires HeaderLine(line) && ReadMessage(rest) == Some((lines, body))
    ensures ReadMessage(line + CRLF + rest) == Some(([line] + lines, body))
  {
    var text := line + CRLF + rest;
    BreakAfter(line, rest);
    assert text[..|line|] == line && text[|line| + 2..] == rest;
  }

  /** What SendWithMessageID and New refuse before anything is written. */
  predicate Acceptable(from: string, to: seq<string>, subject: string, body: string, messageID: string) {
    && from != "" && '@' in from && SingleLine(from)
    && messageID != "" && SingleLine(messageID) && '<' !in messageID && '>' !in messageID
    && to != [] && subject != "" && body != "" && SingleLine(subject)
    && forall i :: 0 <= i < |to| ==> to[i] != "" && SingleLine(to[i])
  }

  lemma {:induction false} JoinSingleLine(parts: seq<string>)
    requires forall i :: 0 <= i < |parts| ==> SingleLine(parts[i])
    ensures SingleLine(Join(parts, ", "))
  {
    if |parts| > 1 {
      JoinSingleLine(parts[1..]);
    }
  }

  predicate HeaderLine(s: string) {
    s != "" && SingleLine(s)
  }

  lemma LineOf(prefix: string, value: string)
    requires HeaderLine(prefix) && SingleLine(value)
    ensures HeaderLine(prefix + value)
  {
  }

  lemma FixedParts()
    ensures HeaderLine("From: ") && HeaderLine("To: ") && HeaderLine("Subject: ") && HeaderLine("Message-ID: <")
    ensures HeaderLine("Date: ") && HeaderLine("MIME-Version: 1.0")
  {
  }

  lemma ContentTypeLine()
    ensures HeaderLine("Content-Type: text/plain; charset=utf-8")
  {
  }

  lemma ContentTransferEncodingLine()
    ensures HeaderLine("Content-Transfer-Encoding: 8bit")
  {
  }

  lemma EightHeaderLines(a: string, b: string, c: string, d: string, e: string, f: string, g: string, h: string)
    requires HeaderLine(a) && HeaderLine(b) && HeaderLine(c) && HeaderLine(d)
    requires HeaderLine(e) && HeaderLine(f) && HeaderLine(g) && HeaderLine(h)
    ensures forall i :: 0 <= i < 8 ==> HeaderLine([a, b, c, d, e, f, g, h][i])
  {
  }

  lemma LinesAreSingle(from: string, to: string, subject: string, messageID: string, date: string)
    requires SingleLine(from) && SingleLine(to) && SingleLine(subject) && SingleLine(messageID) && SingleLine(date)
    ensures HeaderLine("From: " + from) && HeaderLine("To: " + to) && HeaderLine("Subject: " + subject)
    ensures HeaderLine("Message-ID: <" + messageID + ">") && HeaderLine("Date: " + date)
  {
    FixedParts();
    LineOf("From: ", from);
    LineOf("To: ", to);
    LineOf("Subject: ", subject);
    LineOf("Message-ID: <", messageID);
    LineOf("Message-ID: <" + messageID, ">");
    LineOf("Date: ", date);
  }

  /** Whatever the body holds, reading the message gives exactly the eight header lines, each with
      its own value, and the body unchanged. */
  lemma RawMessageReads(from: string, to: seq<string>, subject: string, body: string, messageID: string, date: string)
    requires Acceptable(from, to, subject, body, messageID) && SingleLine(date)
    ensures ReadMessage(Message(HeaderLines(from, to, subject, messageID, date), body))
         == Some((HeaderLines(from, to, subject, messageID, date), body))
  {
    JoinSingleLine(to);
    FixedParts();
    ContentTypeLine();
    ContentTransferEncodingLine();
    LinesAreSingle(from, Join(to, ", "), subject, messageID, date);
    EightHeaderLines("From: " + from, "To: " + Join(to, ", "), "Subject: " + subject, "Message-ID: <" + messageID + ">",
                     "Date: " + date, "MIME-Version: 1.0", "Content-Type: text/plain; charset=utf-8",
                     "Content-Transfer-Encoding: 8bit");
    MessageReads(HeaderLines(from, to, subject, messageID, date), body);
  }

  // ----- Recipients -----

  datatype SendResult = SendResult(delivered: seq<string>, queued: seq<string>, bounces: seq<string>,
                                   suppressed: seq<string>)

  datatype RecipientError = RecipientError(bounced: seq<string>, suppressed: seq<string>, unaccepted: seq<string>)

  datatype Class = Bounced | Suppressed | Accepted | Unaccepted

  /** A bounce outweighs a suppression, and either outweighs an acceptance. */
  function ClassOf(result: Option<SendResult>, r: string): Class {
    if result.None? then Unaccepted
    else if r in result.value.bounces then Bounced
    else if r in result.value.suppressed then Suppressed
    else if r in result.value.delivered || r in result.value.queued then Accepted
    else Unaccepted
  }

  /** The requested recipients of one class, in the order they were requested. */
  function InClass(requested: seq<string>, result: Option<SendResult>, class_: Class): seq<string> {
    Filter((r: string) => ClassOf(result, r) == class_, requested)
  }

  /** A map[string]bool filled by a loop. */
  method Mark(marked: set<string>, names: seq<string>) returns (more: set<string>)
    ensures more == marked + (set r | r in names)
  {
    more := marked;
    for i := 0 to |names|
      invariant more == marked + (set r | r in names[..i])
    {
      assert names[..i + 1] == names[..i] + [names[i]];
      more := more + {names[i]};
    }
    assert names[..|names|] == names;
  }

  /** The four classes partition the requested recipients: each occurrence is in exactly one list. */
  lemma {:induction false} ClassesPartition(requested: seq<string>, result: Option<SendResult>)
    ensures multiset(requested) == multiset(InClass(requested, result, Bounced)) + multiset(InClass(requested, result, Suppressed))
      + multiset(InClass(requested, result, Accepted)) + multiset(InClass(requested, result, Unaccepted))
  {
    if requested != [] {
      ClassesPartition(requested[1..], result);
      assert requested == [requested[0]] + requested[1..];
      InClassCons(requested, result, Bounced);
      InClassCons(requested, result, Suppressed);
      InClassCons(requested, result, Accepted);
      InClassCons(requested, result, Unaccepted);
    }
  }

  lemma InClassCons(requested: seq<string>, result: Option<SendResult>, class_: Class)
    requires requested != []
    ensures multiset(InClass(requested, result, class_)) == multiset(InClass(requested[1..], result, class_))
      + if ClassOf(result, requested[0]) == class_ then multiset{requested[0]} else multiset{}
  {
  }

  lemma InClassSnoc(requested: seq<string>, i: nat, result: Option<SendResult>, class_: Class)
    requires i < |requested|
    ensures InClass(requested[..i + 1], result, class_)
         == InClass(requested[..i], result, class_) + if ClassOf(result, requested[i]) == class_ then [requested[i]] else []
  {
    FilterJoin((r: string) => ClassOf(result, r) == class_, requested[..i], [requested[i]]);
    assert requested[..i + 1] == requested[..i] + [requested[i]];
  }

  predicate AllAccepted(to: seq<string>, result: Option<SendResult>) {
    forall r :: r in to ==> ClassOf(result, r) == Accepted
  }

  /** verifyAllRecipientsAccepted: None is success. */
  method VerifyAllRecipientsAccepted(requested: seq<string>,
                                     result: Option<SendResult>) returns (error: Option<RecipientError>)
    ensures error == if AllAccepted(requested, result) then None
      else Some(RecipientError(InClass(requested, result, Bounced), InClass(requested, result, Suppressed),
                               InClass(requested, result, Unaccepted)))
  {
    var accepted, bounced, suppressed := {}, {}, {};
    if result.Some? {
      accepted := Mark(accepted, result.value.delivered);
      accepted := Mark(accepted, result.value.queued);
      bounced := Mark(bounced, result.value.bounces);
      suppressed := Mark(suppressed, result.value.suppressed);
    }
    var bouncedOut: seq<string>, suppressedOut: seq<string>, unacceptedOut: seq<string> := [], [], [];
    for i := 0 to |requested|
      invariant bouncedOut == InClass(requested[..i], result, Bounced)
      invariant suppressedOut == InClass(requested[..i], result, Suppressed)
      invariant unacceptedOut == InClass(requested[..i], result, Unaccepted)
    {
      var r := requested[i];
      InClassSnoc(requested, i, result, Bounced);
      InClassSnoc(requested, i, result, Suppressed);
      InClassSnoc(requested, i, result, Unaccepted);
      if r in bounced {
        bouncedOut := bouncedOut + [r];
      } else if r in suppressed {
        suppressedOut := suppressedOut + [r];
      } else if r !in accepted {
        unacceptedOut := unacceptedOut + [r];
      }
    }
    assert requested[..|requested|] == requested;
    EmptyClassesExactly(requested, result);
    if |bouncedOut| == 0 && |suppressedOut| == 0 && |unacceptedOut| == 0 {
      return None;
    }
    error := Some(RecipientError(bouncedOut, suppressedOut, unacceptedOut));
  }

  lemma EmptyClassesExactly(requested: seq<string>, result: Option<SendResult>)
    ensures
      && InClass(requested, result, Bounced) == [] && InClass(requested, result, Suppressed) == []
      && InClass(requested, result, Unaccepted) == []
      <==> AllAccepted(requested, result)
  {
    FilterEmpty((r: string) => ClassOf(result, r) == Bounced, requested);
    FilterEmpty((r: string) => ClassOf(result, r) == Suppressed, requested);
    FilterEmpty((r: string) => ClassOf(result, r) == Unaccepted, requested);
  }

  // ----- The verdict -----

  /** A transport error: a name that did not resolve, or a network operation that failed. */
  datatype Failure = Failure(dns: bool, operation: Option<string>)

  datatype Envelope = Envelope(success: Option<bool>, result: Option<SendResult>)

  /** `body` is None when it was cut off, and Some(None) when it is not the documented JSON. */
  datatype Reply = NoReply(failure: Failure) | Answer(status: int, body: Option<Option<Envelope>>)

  datatype Verdict =
    | Sent(messageID: string)
    | Invalid
    | Unsubmitted
    | Ambiguous
    | Refused(error: RecipientError)

  predicate IsUnsubmittedTransportError(failure: Failure) {
    failure.dns || failure.operation == Some("dial")
  }

  /** The replies that prove that nothing was submitted. */
  predicate ProvesNothingSent(reply: Reply) {
    match reply
    case NoReply(failure) => IsUnsubmittedTransportError(failure)
    case Answer(status, body) =>
      status == 429 || (status < 500 && body.Some? && body.value.Some? && body.value.value.success == Some(false))
  }

  /** The one reply that confirms acceptance, recipient by recipient. */
  predicate Confirms(reply: Reply) {
    reply.Answer? && reply.status == 200 && reply.body.Some? && reply.body.value.Some?
    && reply.body.value.value.success == Some(true)
  }

  /** Unsubmitted exactly on proof of it; sent exactly when confirmed for everyone; refused with the
      three lists when confirmed but not for everyone; ambiguous in every other case. */
  predicate VerdictFits(to: seq<string>, messageID: string, reply: Reply, verdict: Verdict) {
    if ProvesNothingSent(reply) then verdict == Unsubmitted
    else if !Confirms(reply) then verdict == Ambiguous
    else
      var result := reply.body.value.value.result;
      verdict == if AllAccepted(to, result) then Sent(messageID)
        else Refused(RecipientError(InClass(to, result, Bounced), InClass(to, result, Suppressed), InClass(to, result, Unaccepted)))
  }

  /** SendWithMessageID from the reply on, in the order of its branches. */
  method Classify(to: seq<string>, messageID: string, reply: Reply) returns (verdict: Verdict)
    ensures VerdictFits(to, messageID, reply, verdict)
  {
    if reply.NoReply? {
      return if IsUnsubmittedTransportError(reply.failure) then Unsubmitted else Ambiguous;
    }
    if reply.status == 429 {
      return Unsubmitted;
    }
    if reply.status >= 500 {
      return Ambiguous;
    }
    if reply.body.None? || reply.body.value.None? {
      return Ambiguous;
    }
    var parsed := reply.body.value.value;
    if parsed.success == Some(false) {
      return Unsubmitted;
    }
    if reply.status == 200 && parsed.success == Some(true) {
      var error := VerifyAllRecipientsAccepted(to, parsed.result);
      return if error.Some? then Refused(error.value) else Sent(messageID);
    }
    verdict := Ambiguous;
  }

  // ----- Repeating a submission -----

  /** One attempt as it really went: the provider's reply and whether it took the message. */
  datatype Attempt = Attempt(reply: Reply, accepted: bool)

  /** The provider's contract: a failed dial or lookup, a 429, and an explicit refusal below 500 all
      mean that nothing was accepted.  Nothing is promised about any other reply. */
  predicate KeepsContract(a: Attempt) {
    a.accepted ==> !ProvesNothingSent(a.reply)
  }

  predicate AllKeep(run: seq<Attempt>) {
    forall i :: 0 <= i < |run| ==> KeepsContract(run[i])
  }

  function Acceptances(run: seq<Attempt>): nat {
    if run == [] then 0 else Acceptances(run[..|run| - 1]) + if run[|run| - 1].accepted then 1 else 0
  }

  function Replies(run: seq<Attempt>): (replies: seq<Reply>)
    ensures |replies| == |run| && forall i :: 0 <= i < |run| ==> replies[i] == run[i].reply
  {
    seq(|run|, i requires 0 <= i < |run| => run[i].reply)
  }

  /** How many replies leave it open whether the message was taken. */
  function Unproven(replies: seq<Reply>): nat {
    if replies == [] then 0
    else Unproven(replies[..|replies| - 1]) + if ProvesNothingSent(replies[|replies| - 1]) then 0 else 1
  }

  lemma {:induction false} AcceptancesBounded(run: seq<Attempt>)
    requires AllKeep(run)
    ensures Acceptances(run) <= Unproven(Replies(run))
  {
    if run != [] {
      AcceptancesBounded(run[..|run| - 1]);
      assert Replies(run)[..|run| - 1] == Replies(run[..|run| - 1]);
      assert KeepsContract(run[|run| - 1]);
    }
  }

  /** The worst that the contract allows: whatever is left open was taken. */
  lemma {:induction false} WorstCase(replies: seq<Reply>) returns (run: seq<Attempt>)
    ensures AllKeep(run) && Replies(run) == replies && Acceptances(run) == Unproven(replies)
  {
    if replies == [] {
      run := [];
    } else {
      var last := replies[|replies| - 1];
      var before := WorstCase(replies[..|replies| - 1]);
      run := before + [Attempt(last, !ProvesNothingSent(last))];
      assert run[..|run| - 1] == before;
      assert Replies(run) == Replies(before) + [last] == replies;
    }
  }

  /** Whatever really happened behind these replies, at most one message was taken. */
  ghost predicate AtMostOneTaken(replies: seq<Reply>) {
    forall run :: AllKeep(run) && Replies(run) == replies ==> Acceptances(run) <= 1
  }

  /** The provider's contract rules out a second delivery for exactly the reply sequences in which at
      most one reply leaves it open whether the message was taken. */
  lemma AtMostOneExactly(replies: seq<Reply>)
    ensures AtMostOneTaken(replies) <==> Unproven(replies) <= 1
  {
    var worst := WorstCase(replies);
    forall run | AllKeep(run) && Replies(run) == replies ensures Acceptances(run) <= Unproven(replies) {
      AcceptancesBounded(run);
    }
  }

  /** A caller that goes on only while every reply so far proves that nothing was sent. */
  predicate Guarded(replies: seq<Reply>) {
    forall i :: 0 <= i < |replies| - 1 ==> ProvesNothingSent(replies[i])
  }

  lemma {:induction false} UnprovenZeroExactly(replies: seq<Reply>)
    ensures Unproven(replies) == 0 <==> forall i :: 0 <= i < |replies| ==> ProvesNothingSent(replies[i])
  {
    if replies != [] {
      var before := replies[..|replies| - 1];
      UnprovenZeroExactly(before);
      assert forall i :: 0 <= i < |before| ==> before[i] == replies[i];
      assert (forall i :: 0 <= i < |before| ==> ProvesNothingSent(before[i])) ==>
        forall i :: 0 <= i < |replies| - 1 ==> ProvesNothingSent(replies[i]);
    }
  }

  /** One more attempt is harmless, whatever its reply will be. */
  ghost predicate AnotherIsHarmless(replies: seq<Reply>) {
    forall next :: AtMostOneTaken(replies + [next])
  }

  lemma UnprovenSnoc(replies: seq<Reply>, next: Reply)
    ensures Unproven(replies + [next]) == Unproven(replies) + if ProvesNothingSent(next) then 0 else 1
  {
    assert (replies + [next])[..|replies|] == replies;
  }

  /** Harmless for this reply, exactly when the attempts together leave at most one open. */
  lemma HarmlessFor(replies: seq<Reply>, next: Reply)
    ensures AtMostOneTaken(replies + [next]) <==>
      Unproven(replies) + (if ProvesNothingSent(next) then 0 else 1) <= 1
  {
    AtMostOneExactly(replies + [next]);
    UnprovenSnoc(replies, next);
  }

  lemma AnotherIsHarmlessExactly(replies: seq<Reply>)
    ensures AnotherIsHarmless(replies) <==> forall i :: 0 <= i < |replies| ==> ProvesNothingSent(replies[i])
  {
    UnprovenZeroExactly(replies);
    if Unproven(replies) == 0 {
      forall next ensures AtMostOneTaken(replies + [next]) {
        HarmlessFor(replies, next);
      }
    } else {
      HarmlessFor(replies, NoReply(Failure(false, None)));
    }
  }

  /** The guard is exactly what is needed: a caller obeys it if and only if every attempt that it made
      was, at the time, harmless whatever its reply would be. */
  lemma GuardedExactly(replies: seq<Reply>)
    ensures Guarded(replies) <==> forall k :: 0 <= k < |replies| ==> AnotherIsHarmless(replies[..k])
  {
    forall k | 0 <= k < |replies|
      ensures AnotherIsHarmless(replies[..k]) <==> forall i :: 0 <= i < k ==> ProvesNothingSent(replies[i])
    {
      AnotherIsHarmlessExactly(replies[..k]);
      assert forall i :: 0 <= i < k ==> replies[..k][i] == replies[i];
    }
    if replies != [] && forall k :: 0 <= k < |replies| ==> AnotherIsHarmless(replies[..k]) {
      assert AnotherIsHarmless(replies[..|replies| - 1]);
    }
  }

  /** Going on without proof need not do harm: an open reply and then a failed lookup. */
  lemma LuckyWithoutGuard()
    ensures var replies := [NoReply(Failure(false, None)), NoReply(Failure(true, None))];
      !Guarded(replies) && AtMostOneTaken(replies)
  {
    var replies := [NoReply(Failure(false, None)), NoReply(Failure(true, None))];
    assert replies[..1] == [replies[0]] && [replies[0]][..0] == [];
    assert Unproven([replies[0]]) == 1;
    assert !ProvesNothingSent(replies[0]);
    AtMostOneExactly(replies);
  }

  /** A mail provider: what was submitted to it, and how many messages it has taken. */
  class Provider {
    ghost var submitted: seq<string>
    ghost var accepted: nat

    method Submit(raw: string) returns (reply: Reply, ghost a: Attempt)
      modifies this
      ensures a.reply == reply && KeepsContract(a)
      ensures submitted == old(submitted) + [raw]
      ensures accepted == old(accepted) + if a.accepted then 1 else 0
    {
      submitted := submitted + [raw];
      reply := Any();
      ghost var taken: bool := Any();
      a := Attempt(reply, taken && !ProvesNothingSent(reply));
      accepted := accepted + if a.accepted then 1 else 0;
    }
  }

  class Client {
    const from: string
    const provider: Provider

    constructor (from: string, provider: Provider)
      requires from != "" && '@' in from && SingleLine(from)
      ensures this.from == from && this.provider == provider
    {
      this.from, this.provider := from, provider;
    }

    /** SendWithMessageID: nothing unacceptable is submitted; otherwise one message is, the verdict
        fits the reply, and nothing was taken when the submission may be repeated. */
    method SendWithMessageID(to: seq<string>, subject: string, body: string, messageID: string, date: string)
      returns (verdict: Verdict, ghost a: Attempt)
      requires from != "" && '@' in from && SingleLine(from)
      modifies provider
      ensures verdict == Invalid <==> !Acceptable(from, to, subject, body, messageID)
      ensures verdict == Invalid ==> provider.submitted == old(provider.submitted)
      ensures verdict != Invalid ==> VerdictFits(to, messageID, a.reply, verdict)
      ensures verdict != Invalid ==>
        provider.submitted == old(provider.submitted) + [Message(HeaderLines(from, to, subject, messageID, date), body)]
      ensures verdict == Invalid || verdict == Unsubmitted ==> provider.accepted == old(provider.accepted)
      ensures KeepsContract(a) && provider.accepted == old(provider.accepted) + if a.accepted then 1 else 0
    {
      a := Attempt(NoReply(Failure(false, None)), false);
      if messageID == "" || !SingleLine(messageID) || '<' in messageID || '>' in messageID {
        return Invalid, a;
      }
      if to == [] || subject == "" || body == "" {
        return Invalid, a;
      }
      if !SingleLine(subject) {
        return Invalid, a;
      }
      for i := 0 to |to|
        invariant forall j :: 0 <= j < i ==> to[j] != "" && SingleLine(to[j])
        invariant provider.accepted == old(provider.accepted) && provider.submitted == old(provider.submitted)
      {
        if to[i] == "" || !SingleLine(to[i]) {
          return Invalid, a;
        }
      }
      var raw := BuildRawMessage(from, to, subject, body, messageID, date);
      var reply;
      reply, a := provider.Submit(raw);
      verdict := Classify(to, messageID, reply);
    }

    /** A caller that repeats a submission, unchanged, as long as the last verdict is Unsubmitted:
        however many attempts it allows itself, the provider takes one message at the most, and none
        when it gives up. */
    method SendUntilSubmitted(
      to: seq<string>, subject: string, body: string, messageID: string, date: string, attempts: nat)
      returns (verdict: Verdict, ghost run: seq<Attempt>)
      requires from != "" && '@' in from && SingleLine(from)
      modifies provider
      ensures provider.accepted <= old(provider.accepted) + 1
      ensures verdict.Invalid? || verdict.Unsubmitted? ==> provider.accepted == old(provider.accepted)
      ensures |run| <= attempts && Guarded(Replies(run)) && AllKeep(run)
      ensures provider.accepted == old(provider.accepted) + Acceptances(run)
      ensures provider.submitted == old(provider.submitted)
           + seq(|run|, i => Message(HeaderLines(from, to, subject, messageID, date), body))
    {
      ghost var message := Message(HeaderLines(from, to, subject, messageID, date), body);
      verdict, run := Unsubmitted, [];
      for attempt := 0 to attempts
        invariant verdict.Unsubmitted? && provider.accepted == old(provider.accepted)
        invariant |run| == attempt && AllKeep(run) && Acceptances(run) == 0
        invariant forall i :: 0 <= i < |run| ==> ProvesNothingSent(run[i].reply)
        invariant provider.submitted == old(provider.submitted) + seq(|run|, i => message)
      {
        ghost var a;
        verdict, a := SendWithMessageID(to, subject, body, messageID, date);
        if verdict.Invalid? {
          return;
        }
        run := run + [a];
        assert run[..attempt] + [a] == run;
        assert provider.submitted == old(provider.submitted) + seq(|run|, i => message);
        if !verdict.Unsubmitted? {
          return;
        }
      }
    }
  }
}
