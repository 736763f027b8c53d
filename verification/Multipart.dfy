/** s3/multipart.go: streaming a body of unknown length into numbered parts, with a bounded
    retry per part, against a server whose replies may be lost. */
module Multipart {
  import opened Decimal
  import opened Environment

  type Byte = b: int | 0 <= b < 256
  type Bytes = seq<Byte>

  const PART_SIZE: nat := 0x80_0000  // 8 MiB
  const MULTIPART_THRESHOLD: nat := 0x80_0000
  const MAX_PARTS: nat := 10000
  const ATTEMPTS: nat := 4

  // ----- How a body is cut -----

  /** What is left of a body after `k` parts. */
  function After(body: Bytes, k: nat): Bytes {
    if k == 0 then body else
      var rest := After(body, k - 1);
      if |rest| < PART_SIZE then [] else rest[PART_SIZE..]
  }

  /** Part number `k`, counted from one. */
  function Chunk(body: Bytes, k: nat): Bytes
    requires k > 0
  {
    var rest := After(body, k - 1);
    if |rest| < PART_SIZE then rest else rest[..PART_SIZE]
  }

  function Chunks(body: Bytes, n: nat): (r: seq<Bytes>)
    ensures |r| == n
  {
    if n == 0 then [] else Chunks(body, n - 1) + [Chunk(body, n)]
  }

  function Concat(parts: seq<Bytes>): Bytes {
    if parts == [] then [] else Concat(parts[..|parts| - 1]) + parts[|parts| - 1]
  }

  lemma {:induction false} ChunksRebuild(body: Bytes, n: nat)
    ensures Concat(Chunks(body, n)) + After(body, n) == body
  {
    if n > 0 {
      ChunksRebuild(body, n - 1);
      assert Chunks(body, n)[..n - 1] == Chunks(body, n - 1);
      assert After(body, n - 1) == Chunk(body, n) + After(body, n);
    }
  }

  lemma {:induction false} AfterLength(body: Bytes, k: nat)
    ensures |After(body, k)| == if |body| >= k * 0x80_0000 then |body| - k * 0x80_0000 else 0
  {
    if k > 0 {
      AfterLength(body, k - 1);
    }
  }

  /** How many parts of the fixed size a length takes. */
  function PartsNeeded(length: nat): nat {
    (length + PART_SIZE - 1) / PART_SIZE
  }

  /** A body that runs out during part `n` has exactly that many parts: all full but the last,
      which is not empty. */
  lemma PartsCounted(body: Bytes, n: nat)
    requires n > 0 && After(body, n - 1) != [] && After(body, n) == []
    ensures n == PartsNeeded(|body|)
    ensures forall k :: 0 < k < n ==> |Chunk(body, k)| == PART_SIZE
    ensures 0 < |Chunk(body, n)| <= PART_SIZE
    ensures Concat(Chunks(body, n)) == body
  {
    AfterLength(body, n - 1);
    AfterLength(body, n);
    forall k | 0 < k < n ensures |Chunk(body, k)| == PART_SIZE {
      AfterLength(body, k - 1);
    }
    ChunksRebuild(body, n);
    assert Concat(Chunks(body, n)) + [] == Concat(Chunks(body, n));
  }

  // ----- The declared size -----

  /** Two's complement, 64 bits. */
  function Wrap(n: int): int {
    if n > MAX_INT64 then n - 0x1_0000_0000_0000_0000 else n
  }

  /** Go's division truncates toward zero. */
  function DeclaredParts(total: int): int {
    var sum := Wrap(total + PART_SIZE - 1);
    if sum >= 0 then sum / PART_SIZE else -(-sum / PART_SIZE)
  }

  /** Next to the 64-bit limit the sum wraps round. */
  predicate SumWraps(total: int) {
    total > MAX_INT64 - (PART_SIZE - 1)
  }

  /** The guard refuses exactly the declared sizes that need more than 10000 parts, except for the
      last few before the 64-bit limit: for those, and for those alone, the count is negative, and
      making a slice of negative capacity panics. */
  lemma GuardExactly(total: int)
    requires 0 < total <= MAX_INT64
    ensures DeclaredParts(total) < 0 <==> SumWraps(total)
    ensures DeclaredParts(total) > MAX_PARTS <==> MAX_PARTS * PART_SIZE < total && !SumWraps(total)
    ensures !SumWraps(total) ==> DeclaredParts(total) == PartsNeeded(total)
  {
  }

  // ----- The stream -----

  datatype ReadStatus = More | EndOfFile | ReadError

  /** An io.Reader: any read may be short or, finitely often, empty; the end may be reported
      with the last bytes or after them; an error may come at any time. */
  class Stream {
    var remaining: Bytes
    var stalls: nat
    ghost var broken: bool

    method Read(limit: nat) returns (data: Bytes, status: ReadStatus)
      requires limit > 0
      modifies this
      ensures |data| <= limit && old(remaining) == data + remaining
      ensures status == EndOfFile ==> remaining == []
      ensures status == More ==> |remaining| + stalls < old(|remaining| + stalls)
      ensures stalls <= old(stalls) && (broken <==> old(broken) || status == ReadError)
    {
      var size: nat := Any();
      var failing: bool := Any();
      if failing {
        broken := true;
        return [], ReadError;
      }
      if remaining == [] {
        return [], EndOfFile;
      }
      if stalls > 0 && size == 0 {
        stalls := stalls - 1;
        return [], More;
      }
      size := if size == 0 then 1 else if size > limit then limit else size;
      size := if size > |remaining| then |remaining| else size;
      data, remaining := remaining[..size], remaining[size..];
      var eager: bool := Any();
      status := if eager && remaining == [] then EndOfFile else More;
    }
  }

  datatype FillStatus = Full | Partial | Empty | FillFailed

  /** io.ReadFull into the one buffer that every part reuses. */
  method ReadFull(body: Stream, buffer: array<Byte>) returns (read: nat, status: FillStatus)
    requires buffer.Length > 0
    modifies body, buffer
    ensures read <= buffer.Length
    ensures old(body.remaining) == buffer[..read] + body.remaining
    ensures status == Full ==> read == buffer.Length
    ensures status == Partial ==> 0 < read < buffer.Length && body.remaining == []
    ensures status == Empty ==> read == 0 && body.remaining == []
    ensures status == FillFailed ==> body.broken
  {
    read := 0;
    var last := More;
    while read < buffer.Length && last == More
      invariant read <= buffer.Length
      invariant old(body.remaining) == buffer[..read] + body.remaining
      invariant last == EndOfFile ==> body.remaining == []
      invariant last == ReadError ==> body.broken
      decreases |body.remaining| + body.stalls + if last == More then 1 else 0
    {
      var data, next := body.Read(buffer.Length - read);
      ghost var filled := buffer[..read];
      forall i | 0 <= i < |data| {
        buffer[read + i] := data[i];
      }
      assert buffer[..read + |data|] == filled + data;
      read, last := read + |data|, next;
    }
    status := if read == buffer.Length then Full
              else if last == ReadError then FillFailed
              else if read == 0 then Empty
              else Partial;
  }

  // ----- The server -----

  datatype Part = Part(content: Bytes, etag: string)

  datatype Completed = Completed(partNumber: nat, etag: string)

  /** What the client sees of one attempt; whatever it sees, the part may have been stored. */
  datatype PutReply = Acknowledged(etag: string) | Transient | Permanent

  datatype Sent =
    | PutSent(partNumber: nat, content: Bytes, reply: PutReply)
    | CompleteSent(parts: seq<Completed>, acknowledged: bool)
    | AbortSent(acknowledged: bool)

  function Assembled(slots: map<nat, Part>, parts: seq<Completed>): Bytes
    requires forall i :: 0 <= i < |parts| ==> parts[i].partNumber in slots
  {
    if parts == [] then []
    else Assembled(slots, parts[..|parts| - 1]) + slots[parts[|parts| - 1].partNumber].content
  }

  predicate Matching(slots: map<nat, Part>, parts: seq<Completed>) {
    forall i :: 0 <= i < |parts| ==>
      parts[i].partNumber in slots && slots[parts[i].partNumber].etag == parts[i].etag
  }

  /** One multipart upload: its part slots, the object under its key, and everything sent to it. */
  class Upload {
    /** Whether a reply of success to a complete is never an error in disguise. */
    const truthful: bool
    var slots: map<nat, Part>
    var stored: Option<Bytes>
    var log: seq<Sent>

    method PutPart(partNumber: nat, content: Bytes) returns (reply: PutReply)
      modifies this
      ensures log == old(log) + [PutSent(partNumber, content, reply)] && stored == old(stored)
      ensures reply.Acknowledged? ==> slots == old(slots)[partNumber := Part(content, reply.etag)]
      ensures slots == old(slots)
              || exists etag: string :: slots == old(slots)[partNumber := Part(content, etag)]
    {
      reply := Any();
      var etag: string := Any();
      var reached: bool := Any();
      if reply.Acknowledged? {
        etag, reached := reply.etag, true;
      }
      if reached {
        slots := slots[partNumber := Part(content, etag)];
      }
      log := log + [PutSent(partNumber, content, reply)];
    }

    /** Completing with etags that do not match what is stored has no effect.  A matching request may
        take effect although its reply is lost, and a reply of success may carry an error in its body,
        which the client does not read: unless the server is truthful, no reply tells whether the
        object is there. */
    method Complete(parts: seq<Completed>) returns (acknowledged: bool)
      modifies this
      ensures log == old(log) + [CompleteSent(parts, acknowledged)] && slots == old(slots)
      ensures stored == old(stored) || (Matching(slots, parts) && stored == Some(Assembled(slots, parts)))
      ensures acknowledged && truthful ==> Matching(slots, parts) && stored == Some(Assembled(slots, parts))
    {
      var reached: bool := Any();
      acknowledged := Any();
      acknowledged := acknowledged && (truthful ==> reached && Matching(slots, parts));
      if reached && Matching(slots, parts) {
        stored := Some(Assembled(slots, parts));
      }
      log := log + [CompleteSent(parts, acknowledged)];
    }

    method Abort() returns (acknowledged: bool)
      modifies this
      ensures log == old(log) + [AbortSent(acknowledged)] && stored == old(stored)
    {
      acknowledged := Any();
      if acknowledged {
        slots := map[];
      }
      log := log + [AbortSent(acknowledged)];
    }
  }

  // ----- uploadPartWithRetry -----

  /** The attempts at one part: at most four, all with the same bytes, and each but the last
      a transient failure. */
  predicate AttemptsAt(sent: seq<Sent>, partNumber: nat, content: Bytes) {
    && |sent| <= ATTEMPTS
    && (forall i :: 0 <= i < |sent| ==>
          sent[i].PutSent? && sent[i].partNumber == partNumber && sent[i].content == content)
    && (forall i :: 0 <= i < |sent| - 1 ==> sent[i].reply.Transient?)
  }

  predicate SlotChanged(before: map<nat, Part>, after: map<nat, Part>, partNumber: nat, content: Bytes) {
    && (forall k :: k in before && k != partNumber ==> k in after && after[k] == before[k])
    && (forall k :: k in after && k != partNumber ==> k in before)
    && (partNumber in after ==> after[partNumber].content == content
                                || (partNumber in before && after[partNumber] == before[partNumber]))
  }

  /** The last request was a part that was not acknowledged. */
  predicate LastPartFailed(log: seq<Sent>) {
    log != [] && log[|log| - 1].PutSent? && !log[|log| - 1].reply.Acknowledged?
  }

  /** `cancelled` tells whether the context ended between two attempts. */
  method UploadPartWithRetry(upload: Upload, partNumber: nat, content: Bytes)
    returns (etag: Option<string>, ghost cancelled: bool)
    modifies upload
    ensures |old(upload.log)| < |upload.log| && (etag.None? <==> LastPartFailed(upload.log))
    ensures etag.None? && !cancelled ==>
      upload.log[|upload.log| - 1].reply.Permanent? || |upload.log| == |old(upload.log)| + ATTEMPTS
    ensures upload.stored == old(upload.stored)
    ensures old(upload.log) <= upload.log
    ensures AttemptsAt(upload.log[|old(upload.log)|..], partNumber, content)
    ensures SlotChanged(old(upload.slots), upload.slots, partNumber, content)
    ensures etag.Some? ==>
      partNumber in upload.slots && upload.slots[partNumber] == Part(content, etag.value)
  {
    ghost var base := |upload.log|;
    for attempt := 0 to ATTEMPTS
      invariant upload.stored == old(upload.stored)
      invariant old(upload.log) <= upload.log && |upload.log| == base + attempt
      invariant AttemptsAt(upload.log[base..], partNumber, content)
      invariant forall i :: base <= i < |upload.log| ==> upload.log[i].PutSent? && upload.log[i].reply.Transient?
      invariant SlotChanged(old(upload.slots), upload.slots, partNumber, content)
    {
      if attempt > 0 {
        var done := Any();
        if done {
          return None, true;
        }
      }
      ghost var before := upload.log;
      var reply := upload.PutPart(partNumber, content);
      assert upload.log[base..] == before[base..] + [PutSent(partNumber, content, reply)];
      if reply.Acknowledged? {
        return Some(reply.etag), false;
      }
      if !reply.Transient? {
        return None, false;
      }
    }
    etag, cancelled := None, false;
  }

  // ----- uploadParts -----

  /** Every slot is empty or holds exactly its chunk of the body. */
  predicate SlotsRight(slots: map<nat, Part>, body: Bytes) {
    forall k :: k in slots ==> k > 0 && slots[k].content == Chunk(body, k)
  }

  /** Every part ever sent carried exactly its chunk of the body. */
  predicate PutsRight(log: seq<Sent>, body: Bytes) {
    forall i :: 0 <= i < |log| ==>
      log[i].PutSent? && log[i].partNumber > 0 && log[i].content == Chunk(body, log[i].partNumber)
  }

  /** `parts` names parts 1 to n in order, each with the etag it is stored under. */
  predicate NamesParts(parts: seq<Completed>, slots: map<nat, Part>, body: Bytes) {
    forall i :: 0 <= i < |parts| ==>
      && parts[i].partNumber == i + 1 && i + 1 in slots
      && slots[i + 1] == Part(Chunk(body, i + 1), parts[i].etag)
  }

  lemma SlotsStayRight(before: map<nat, Part>, after: map<nat, Part>, k: nat, body: Bytes, parts: seq<Completed>)
    requires k > 0 && SlotsRight(before, body) && SlotChanged(before, after, k, Chunk(body, k))
    requires |parts| < k && NamesParts(parts, before, body)
    ensures SlotsRight(after, body) && NamesParts(parts, after, body)
  {
    forall i | 0 <= i < |parts| ensures parts[i].partNumber in after && parts[i].partNumber != k {
      assert parts[i].partNumber == i + 1;
    }
  }

  /** Filling the buffer, or draining the body trying, cuts off exactly the next chunk. */
  lemma CutMatches(whole: Bytes, k: nat, data: Bytes, left: Bytes)
    requires k > 0 && After(whole, k - 1) == data + left && data != []
    requires |data| == PART_SIZE || (|data| < PART_SIZE && left == [])
    ensures Chunk(whole, k) == data && After(whole, k) == left
  {
    var rest := After(whole, k - 1);
    if |data| == PART_SIZE {
      assert rest[..PART_SIZE] == data && rest[PART_SIZE..] == left;
    } else {
      assert rest == data;
    }
  }

  /** One turn of the loop's upload: what held of the slots and the requests so far still holds. */
  method UploadNext(upload: Upload, partNumber: nat, content: Bytes, ghost whole: Bytes, ghost sent: seq<Completed>)
    returns (etag: Option<string>)
    requires partNumber == |sent| + 1 && content == Chunk(whole, partNumber)
    requires SlotsRight(upload.slots, whole) && PutsRight(upload.log, whole)
    requires NamesParts(sent, upload.slots, whole)
    modifies upload
    ensures upload.stored == old(upload.stored)
    ensures SlotsRight(upload.slots, whole) && PutsRight(upload.log, whole)
    ensures NamesParts(sent, upload.slots, whole)
    ensures etag.Some? ==> NamesParts(sent + [Completed(partNumber, etag.value)], upload.slots, whole)
    ensures etag.None? ==> LastPartFailed(upload.log)
  {
    ghost var slots, log := upload.slots, upload.log;
    ghost var cancelled;
    etag, cancelled := UploadPartWithRetry(upload, partNumber, content);
    SlotsStayRight(slots, upload.slots, partNumber, whole, sent);
    assert upload.log == log + upload.log[|log|..];
  }

  /** The reasons for which parts are not all sent. */
  predicate GaveUp(log: seq<Sent>, broken: bool, body: Bytes, totalBytes: int) {
    DeclaredParts(totalBytes) > MAX_PARTS || broken || LastPartFailed(log) || body == []
  }

  /** Panics, before anything is read or sent, when the declared count is negative.  A body of the
      declared size is sent in as many parts as that size takes, 10000 at the most. */
  method UploadParts(upload: Upload, body: Stream, totalBytes: int)
    returns (parts: Option<seq<Completed>>, panicked: bool)
    requires upload.slots == map[] && upload.log == [] && !body.broken
    requires MIN_INT64 <= totalBytes <= MAX_INT64
    modifies upload, body
    ensures panicked <==> DeclaredParts(totalBytes) < 0
    ensures totalBytes > 0 ==> (panicked <==> SumWraps(totalBytes))
    ensures panicked ==> parts.None? && upload.log == [] && body.remaining == old(body.remaining)
    ensures upload.stored == old(upload.stored)
    ensures SlotsRight(upload.slots, old(body.remaining)) && PutsRight(upload.log, old(body.remaining))
    ensures DeclaredParts(totalBytes) > MAX_PARTS ==> parts.None? && upload.log == []
    ensures parts.None? && !panicked ==> GaveUp(upload.log, body.broken, old(body.remaining), totalBytes)
    ensures parts.Some? ==>
      && NamesParts(parts.value, upload.slots, old(body.remaining))
      && |parts.value| > 0
      && After(old(body.remaining), |parts.value| - 1) != []
      && After(old(body.remaining), |parts.value|) == []
    ensures parts.Some? && |old(body.remaining)| == totalBytes ==>
      |parts.value| == PartsNeeded(totalBytes) <= MAX_PARTS
  {
    if totalBytes > 0 {
      GuardExactly(totalBytes);
    }
    if DeclaredParts(totalBytes) > MAX_PARTS {
      return None, false;
    }
    if DeclaredParts(totalBytes) < 0 {
      return None, true;
    }
    parts := SendParts(upload, body);
    panicked := false;
    if parts.Some? {
      PartsCounted(old(body.remaining), |parts.value|);
      assert old(body.remaining) != [];
    }
  }

  /** The loop: the slots it fills hold exactly the chunks of the body, although one buffer is reused. */
  method SendParts(upload: Upload, body: Stream) returns (parts: Option<seq<Completed>>)
    requires upload.slots == map[] && upload.log == [] && !body.broken
    modifies upload, body
    ensures upload.stored == old(upload.stored)
    ensures SlotsRight(upload.slots, old(body.remaining)) && PutsRight(upload.log, old(body.remaining))
    ensures parts.None? ==> body.broken || LastPartFailed(upload.log) || old(body.remaining) == []
    ensures parts.Some? ==>
      && NamesParts(parts.value, upload.slots, old(body.remaining))
      && |parts.value| > 0
      && After(old(body.remaining), |parts.value| - 1) != []
      && After(old(body.remaining), |parts.value|) == []
  {
    ghost var whole := body.remaining;
    var buffer := new Byte[PART_SIZE];
    var collected: seq<Completed> := [];
    var partNumber: nat := 1;
    var ended := false;
    while !ended
      invariant partNumber >= 1 && upload.stored == old(upload.stored)
      invariant SlotsRight(upload.slots, whole) && PutsRight(upload.log, whole)
      invariant NamesParts(collected, upload.slots, whole)
      invariant |collected| == partNumber - 1
      invariant !ended ==> body.remaining == After(whole, partNumber - 1)
      invariant ended ==> After(whole, partNumber - 1) == []
      invariant partNumber > 1 ==> After(whole, partNumber - 2) != []
      decreases !ended, |body.remaining|
    {
      var read, status := ReadFull(body, buffer);
      if status == FillFailed {
        return None;
      }
      if read == 0 {
        ended := true;
      } else {
        CutMatches(whole, partNumber, buffer[..read], body.remaining);
        var etag := UploadNext(upload, partNumber, buffer[..read], whole, collected);
        if etag.None? {
          return None;
        }
        collected := collected + [Completed(partNumber, etag.value)];
        partNumber := partNumber + 1;
        ended := status == Partial;
      }
    }
    if |collected| == 0 {
      return None;
    }
    parts := Some(collected);
  }

  // ----- putMultipart -----

  datatype Outcome = CreateFailed | Uploaded | Failed(abortFailureJoined: bool) | Panicked

  /** `n` parts first, then at most one complete, then at most one abort. */
  predicate OrderedAt(log: seq<Sent>, n: nat) {
    && n <= |log|
    && (forall i :: 0 <= i < n ==> log[i].PutSent?)
    && (|log| == n
        || (|log| == n + 1 && !log[n].PutSent?)
        || (|log| == n + 2 && log[n].CompleteSent? && log[n + 1].AbortSent?))
  }

  predicate WellOrdered(log: seq<Sent>) {
    exists n :: 0 <= n <= |log| && OrderedAt(log, n)
  }

  lemma {:induction false} AssembledIsBody(slots: map<nat, Part>, parts: seq<Completed>, body: Bytes)
    requires NamesParts(parts, slots, body)
    ensures Matching(slots, parts)
    ensures Assembled(slots, parts) == Concat(Chunks(body, |parts|))
  {
    if parts != [] {
      var shorter := parts[..|parts| - 1];
      AssembledIsBody(slots, shorter, body);
      var chunks := Chunks(body, |parts|);
      assert chunks[..|parts| - 1] == Chunks(body, |shorter|);
      assert parts[|parts| - 1].partNumber == |parts|;
    }
  }

  predicate EveryPartIsItsChunk(log: seq<Sent>, body: Bytes) {
    forall i :: 0 <= i < |log| && log[i].PutSent? ==>
      log[i].partNumber > 0 && log[i].content == Chunk(body, log[i].partNumber)
  }

  /** What may follow the parts. */
  lemma PartsFirst(log: seq<Sent>, longer: seq<Sent>, body: Bytes)
    requires PutsRight(log, body) && log <= longer && |longer| <= |log| + 2
    requires forall i :: |log| <= i < |longer| ==> !longer[i].PutSent?
    requires |longer| == |log| + 2 ==> longer[|log|].CompleteSent? && longer[|log| + 1].AbortSent?
    ensures WellOrdered(longer) && EveryPartIsItsChunk(longer, body)
  {
    forall i | 0 <= i < |log| ensures longer[i] == log[i] && log[i].PutSent? {
    }
    assert OrderedAt(longer, |log|);
  }

  /** The last request is an acknowledged complete that names parts 1 to n in order. */
  predicate CompletedWith(log: seq<Sent>, n: nat) {
    && log != []
    && var last := log[|log| - 1];
       last.CompleteSent? && last.acknowledged && |last.parts| == n
       && forall i :: 0 <= i < n ==> last.parts[i].partNumber == i + 1
  }

  predicate CompleteFailed(log: seq<Sent>) {
    log != [] && log[|log| - 1].CompleteSent? && !log[|log| - 1].acknowledged
  }

  /** The end of putMultipart when all parts were sent: complete, or else abort. */
  method Settle(upload: Upload, parts: seq<Completed>, ghost whole: Bytes) returns (outcome: Outcome)
    requires NamesParts(parts, upload.slots, whole)
    requires |parts| > 0 && After(whole, |parts| - 1) != [] && After(whole, |parts|) == []
    modifies upload
    ensures upload.stored == old(upload.stored) || upload.stored == Some(whole)
    ensures outcome.Uploaded? || outcome.Failed?
    ensures old(upload.log) <= upload.log && (forall i :: |old(upload.log)| <= i < |upload.log| ==> !upload.log[i].PutSent?)
    ensures outcome.Uploaded? ==>
      && |upload.log| == |old(upload.log)| + 1 && CompletedWith(upload.log, PartsNeeded(|whole|))
      && (upload.truthful ==> upload.stored == Some(whole))
    ensures outcome.Failed? ==>
      && |upload.log| == |old(upload.log)| + 2
      && upload.log[|upload.log| - 1] == AbortSent(!outcome.abortFailureJoined)
      && upload.log[|old(upload.log)|].CompleteSent? && CompleteFailed(upload.log[..|upload.log| - 1])
  {
    AssembledIsBody(upload.slots, parts, whole);
    PartsCounted(whole, |parts|);
    var completed := upload.Complete(parts);
    if !completed {
      ghost var log := upload.log;
      var aborted := upload.Abort();
      assert upload.log[..|upload.log| - 1] == log;
      return Failed(!aborted);
    }
    outcome := Uploaded;
  }

  /** Once create has returned an upload id, a call whose declared size is not next to the 64-bit
      limit ends in one of two ways: an acknowledged complete that names all parts in order; or an
      abort, whose own failure is joined into the error.  From a truthful server the acknowledgement
      means that the object is the body.  At the sizes next to the limit, and only
      there, it panics, and the upload is neither completed nor aborted.  The object under the key is
      the one that was there or the whole body. */
  method PutMultipart(upload: Upload, body: Stream, totalBytes: int) returns (outcome: Outcome)
    requires upload.slots == map[] && upload.log == [] && !body.broken
    requires MIN_INT64 <= totalBytes <= MAX_INT64
    modifies upload, body
    ensures outcome.CreateFailed? || (outcome.Panicked? <==> DeclaredParts(totalBytes) < 0)
    ensures !outcome.CreateFailed? && totalBytes > 0 ==> (outcome.Panicked? <==> SumWraps(totalBytes))
    ensures outcome.Panicked? ==> upload.log == [] && upload.stored == old(upload.stored)
    ensures WellOrdered(upload.log)
    ensures EveryPartIsItsChunk(upload.log, old(body.remaining))
    ensures upload.stored == old(upload.stored) || upload.stored == Some(old(body.remaining))
    ensures outcome.CreateFailed? ==> upload.log == []
    ensures outcome.Uploaded? ==>
      && CompletedWith(upload.log, PartsNeeded(|old(body.remaining)|))
      && (upload.truthful ==> upload.stored == Some(old(body.remaining)))
    ensures outcome.Failed? ==>
      && |upload.log| > 0
      && upload.log[|upload.log| - 1] == AbortSent(!outcome.abortFailureJoined)
      && var before := upload.log[..|upload.log| - 1];
         CompleteFailed(before) || GaveUp(before, body.broken, old(body.remaining), totalBytes)
  {
    var created := Any();
    if !created {
      PartsFirst([], [], body.remaining);
      return CreateFailed;
    }
    ghost var whole := body.remaining;
    var parts, panicked := UploadParts(upload, body, totalBytes);
    ghost var puts := upload.log;
    if panicked {
      PartsFirst([], [], whole);
      return Panicked;
    }
    if parts.None? {
      var aborted := upload.Abort();
      assert upload.log[..|puts|] == puts;
      PartsFirst(puts, upload.log, whole);
      return Failed(!aborted);
    }
    outcome := Settle(upload, parts.value, whole);
    PartsFirst(puts, upload.log, whole);
  }

  // ----- PutStream -----

  /** What reading the object back reports. */
  datatype Identity = Identity(sha256: string, bytes: nat)

  datatype StreamResult = Stored | Error | Panic

  /** When no one else writes the key, the object is the whole body or the one that was there before,
      and success means that it has the declared size and hash: so when there was none it is the
      body, and the body is what was declared.  A panic takes one of the sizes next to the 64-bit
      limit. */
  method PutStream(upload: Upload, body: Stream, size: int, sha256Hex: string, hash: Bytes -> string)
    returns (result: StreamResult)
    requires upload.slots == map[] && upload.log == [] && !body.broken
    requires MIN_INT64 <= size <= MAX_INT64
    modifies upload, body
    ensures upload.stored == old(upload.stored) || upload.stored == Some(old(body.remaining))
    ensures result.Stored? ==>
      upload.stored.Some? && |upload.stored.value| == size && hash(upload.stored.value) == sha256Hex
    ensures result.Stored? && old(upload.stored) == None ==> upload.stored == Some(old(body.remaining))
    ensures result.Stored? && size > MULTIPART_THRESHOLD ==> |upload.log| > 0
    ensures size < 1 || |sha256Hex| != 64 ==>
      result.Error? && upload.log == [] && upload.stored == old(upload.stored)
    ensures result.Panic? ==> SumWraps(size) && upload.log == [] && upload.stored == old(upload.stored)
    ensures SumWraps(size) ==> !result.Stored?
  {
    if size < 1 || |sha256Hex| != 64 {
      return Error;
    }
    ghost var whole := body.remaining;
    if size <= MULTIPART_THRESHOLD {
      var content := ReadLimited(body, size + 1);
      if content.None? || |content.value| != size {
        return Error;
      }
      assert content.value + [] == content.value;
      var reached: bool := Any();
      var replied: bool := Any();
      if reached {
        upload.stored := content;
      }
      if !reached || !replied {
        return Error;
      }
    } else {
      GuardExactly(size);
      var outcome := PutMultipart(upload, body, size);
      if outcome.Panicked? {
        return Panic;
      }
      if !outcome.Uploaded? {
        return Error;
      }
    }
    var readable := Any();
    if !readable || upload.stored.None? {
      return Error;
    }
    var verified := Identity(hash(upload.stored.value), |upload.stored.value|);
    result := if verified.sha256 == sha256Hex && verified.bytes == size then Stored else Error;
  }

  /** io.ReadAll over io.LimitReader: everything up to `limit` bytes. */
  method ReadLimited(body: Stream, limit: nat) returns (content: Option<Bytes>)
    modifies body
    ensures content.Some? ==>
      |content.value| <= limit && old(body.remaining) == content.value + body.remaining
    ensures content.Some? && |content.value| < limit ==> body.remaining == []
  {
    var data: Bytes := [];
    var last := More;
    while |data| < limit && last == More
      invariant |data| <= limit && old(body.remaining) == data + body.remaining
      invariant last == EndOfFile ==> body.remaining == []
      decreases |body.remaining| + body.stalls + if last == More then 1 else 0
    {
      var piece, next := body.Read(limit - |data|);
      data, last := data + piece, next;
    }
    content := if last == ReadError then None else Some(data);
  }
}
