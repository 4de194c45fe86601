/** A ranged download that survives cut connections (blobfile_disk.go,
    blobfile.go). A partial reply (206) resumes, a full reply (200) starts
    over; range requests are those of RFC 9110, section 14.2, and partial
    content that of section 15.3.7. */
module BlobDownload {

  const BLOB_RETRIES := 5

  /** One answer: none at all, or a status and the body read before the stream
      ended, cleanly or cut short. */
  datatype Response = NoAnswer | Reply(status: int, body: string, cut: bool)

  datatype Descriptor = Descriptor(size: int, digest: string)

  /** The answer to the request of each attempt, by attempt and by the offset
      asked for. */
  type Server = (nat, nat) -> Response

  // ----- the staged file ------------------------------------------------------

  function Zeros(n: nat): string { seq(n, _ => '\0') }

  /** A file after writing `data` at `pos`: a gap is filled with zeros. */
  function Overwritten(file: string, pos: nat, data: string): string {
    (if pos <= |file| then file[..pos] else file + Zeros(pos - |file|))
    + data
    + (if pos + |data| < |file| then file[pos + |data|..] else "")
  }

  class StagedFile {
    var contents: string
    var pos: nat

    constructor ()
      ensures contents == "" && pos == 0
    {
      contents, pos := "", 0;
    }

    method Truncate()
      modifies this
      ensures contents == "" && pos == old(pos)
    {
      contents := "";
    }

    method Seek(offset: nat)
      modifies this
      ensures pos == offset && contents == old(contents)
    {
      pos := offset;
    }

    method Write(data: string)
      modifies this
      ensures contents == Overwritten(old(contents), old(pos), data)
      ensures pos == old(pos) + |data|
    {
      contents := Overwritten(contents, pos, data);
      pos := pos + |data|;
    }
  }

  // ----- one attempt ---------------------------------------------------------

  /** The file after one answer to a request for what follows its contents. */
  function Applied(file: string, resp: Response): string {
    match resp
    case NoAnswer => file
    case Reply(status, body, _) =>
      if status == 200 then body else if status == 206 then file + body else file
  }

  predicate Accepted(resp: Response) { resp.Reply? && (resp.status == 200 || resp.status == 206) }

  /** How many bytes an answer delivered. */
  function Gained(resp: Response): nat { if Accepted(resp) then |resp.body| else 0 }

  predicate Clean(resp: Response) { Accepted(resp) && !resp.cut }

  /** Writes what one answer delivers; `restarted` says the file was rewritten
      from its start although a range had been asked for. */
  method WriteBlobFrom(resp: Response, offset: nat, f: StagedFile) returns (n: nat, restarted: bool, ok: bool)
    requires offset == |f.contents|
    modifies f
    ensures n == Gained(resp) && ok == Clean(resp)
    ensures restarted == (resp.Reply? && resp.status == 200 && offset > 0)
    ensures f.contents == Applied(old(f.contents), resp)
  {
    if resp.NoAnswer? { return 0, false, false; }
    restarted := false;
    if resp.status == 200 {
      restarted := offset > 0;
      f.Truncate();
      f.Seek(0);
    } else if resp.status == 206 {
      f.Seek(offset);
    } else {
      return 0, false, false;
    }
    f.Write(resp.body);
    return |resp.body|, restarted, !resp.cut;
  }

  // ----- the retry loop --------------------------------------------------------

  datatype Transfer = Finished(file: string) | GaveUp(file: string) | Exhausted(file: string)

  /** The whole exchange from one attempt on. */
  function Exchange(server: Server, attempt: nat, file: string): Transfer
    requires attempt <= BLOB_RETRIES + 1
    decreases BLOB_RETRIES + 1 - attempt
  {
    if attempt > BLOB_RETRIES then Exhausted(file)
    else
      var resp := server(attempt, |file|);
      var next := Applied(file, resp);
      if Clean(resp) then Finished(next)
      else if Gained(resp) == 0 && attempt > 0 then GaveUp(next)
      else Exchange(server, attempt + 1, next)
  }

  /** Whether an exchange is accepted as the described blob. */
  predicate Fetched(x: Transfer, desc: Descriptor, digest: string -> string) {
    !x.GaveUp? && (desc.size > 0 ==> |x.file| == desc.size) && digest(x.file) == desc.digest
  }

  /** Downloads into a staged file, at most BLOB_RETRIES times over again. */
  method FetchBlobFile(server: Server, desc: Descriptor, digest: string -> string)
    returns (ok: bool, f: StagedFile, attempts: nat)
    ensures fresh(f)
    ensures attempts <= BLOB_RETRIES + 1
    ensures ok == Fetched(Exchange(server, 0, ""), desc, digest)
    ensures ok ==> f.contents == Exchange(server, 0, "").file && f.pos == 0
  {
    f := new StagedFile();
    var got := 0;
    attempts := 0;
    ghost var x := Exchange(server, 0, "");
    var finished := false;
    while attempts <= BLOB_RETRIES && !finished
      invariant attempts <= BLOB_RETRIES + 1
      invariant fresh(f) && got == |f.contents|
      invariant if finished then x == Finished(f.contents) else Exchange(server, attempts, f.contents) == x
      decreases BLOB_RETRIES + 1 - attempts, !finished
    {
      var n, restarted, clean := WriteBlobFrom(server(attempts, got), got, f);
      if restarted { got := n; } else { got := got + n; }
      if clean {
        finished := true;
      } else if n == 0 && attempts > 0 {
        return false, f, attempts + 1;
      }
      attempts := attempts + 1;
    }
    if desc.size > 0 && got != desc.size { return false, f, attempts; }
    f.Seek(0);
    var sum := digest(f.contents);
    if sum != desc.digest { return false, f, attempts; }
    f.Seek(0);
    ok := true;
  }

  // ----- a faithful server -----------------------------------------------------

  /** The answer delivers the start of what was asked for, and all of it when
      the stream ends cleanly. */
  ghost predicate FaithfulAnswer(resp: Response, blob: string, offset: nat) {
    resp.Reply? ==>
      (resp.status == 200 ==> resp.body <= blob && (!resp.cut ==> resp.body == blob))
      && (resp.status == 206 ==>
            (offset <= |blob| && resp.body <= blob[offset..] && (!resp.cut ==> resp.body == blob[offset..])))
  }

  ghost predicate Faithful(server: Server, blob: string) {
    forall attempt: nat, offset: nat :: FaithfulAnswer(server(attempt, offset), blob, offset)
  }

  /** A resumed file stays a beginning of the blob. */
  lemma AppliedFaithful(file: string, resp: Response, blob: string)
    requires file <= blob && FaithfulAnswer(resp, blob, |file|)
    ensures Applied(file, resp) <= blob
    ensures Clean(resp) ==> Applied(file, resp) == blob
  {
    assert blob == blob[..|file|] + blob[|file|..];
    if resp.Reply? && resp.status == 206 {
      assert resp.body == blob[|file|..][..|resp.body|];
      assert file + resp.body == blob[..|file| + |resp.body|];
    }
  }

  /** Whatever cuts, resumptions and replays it went through, the file holds
      the first bytes of the blob, and all of them once a stream ended cleanly. */
  lemma {:induction false} ExchangeFaithful(server: Server, attempt: nat, file: string, blob: string)
    requires attempt <= BLOB_RETRIES + 1 && Faithful(server, blob) && file <= blob
    ensures Exchange(server, attempt, file).file <= blob
    ensures Exchange(server, attempt, file).Finished? ==> Exchange(server, attempt, file).file == blob
    decreases BLOB_RETRIES + 1 - attempt
  {
    if attempt > BLOB_RETRIES {
    } else {
      var resp := server(attempt, |file|);
      assert FaithfulAnswer(resp, blob, |file|);
      AppliedFaithful(file, resp, blob);
      if !Clean(resp) && !(Gained(resp) == 0 && attempt > 0) {
        ExchangeFaithful(server, attempt + 1, Applied(file, resp), blob);
      }
    }
  }

  // ----- the requests that are made ----------------------------------------------

  /** The staged file before attempt `k`, when every attempt before was answered. */
  function FileAt(server: Server, k: nat): string
    decreases k, 0
  {
    if k == 0 then "" else Applied(FileAt(server, k - 1), AnswerAt(server, k - 1))
  }

  /** The answer to attempt `k`, which asks for what follows the staged file. */
  function AnswerAt(server: Server, k: nat): Response
    decreases k, 1
  {
    server(k, |FileAt(server, k)|)
  }

  /** An attempt that leads to another one: cut short, but not for nothing; the
      first may be. */
  predicate Continues(server: Server, k: nat) {
    !Clean(AnswerAt(server, k)) && (Gained(AnswerAt(server, k)) > 0 || k == 0)
  }

  /** The answers of a download that succeeds: up to some attempt every stream
      is cut after delivering something, and then one ends cleanly, or the last
      one allowed completes the file. */
  ghost predicate Delivers(server: Server, size: int) {
    exists k :: 0 <= k <= BLOB_RETRIES
      && (forall i :: 0 <= i < k ==> Continues(server, i))
      && (Clean(AnswerAt(server, k))
          || (k == BLOB_RETRIES && Continues(server, k) && |FileAt(server, k + 1)| == size))
  }

  lemma {:induction false} ExchangeReaches(server: Server, k: nat)
    requires k <= BLOB_RETRIES + 1 && forall i :: 0 <= i < k ==> Continues(server, i)
    ensures Exchange(server, 0, "") == Exchange(server, k, FileAt(server, k))
  {
    if k == 0 {
      assert FileAt(server, 0) == "";
    } else {
      ExchangeReaches(server, k - 1);
      assert Continues(server, k - 1);
      ExchangeStep(server, k - 1, FileAt(server, k - 1));
    }
  }

  lemma ExchangeStep(server: Server, attempt: nat, file: string)
    requires attempt <= BLOB_RETRIES
    ensures
      var resp := server(attempt, |file|);
      Exchange(server, attempt, file) ==
        if Clean(resp) then Finished(Applied(file, resp))
        else if Gained(resp) == 0 && attempt > 0 then GaveUp(Applied(file, resp))
        else Exchange(server, attempt + 1, Applied(file, resp))
  {
  }

  /** The attempt at which the loop ends. */
  lemma {:induction false} LastAttempt(server: Server, from: nat) returns (k: nat)
    requires from <= BLOB_RETRIES && forall i :: 0 <= i < from ==> Continues(server, i)
    ensures from <= k <= BLOB_RETRIES && forall i :: 0 <= i < k ==> Continues(server, i)
    ensures k < BLOB_RETRIES ==> !Continues(server, k)
    decreases BLOB_RETRIES - from
  {
    if from == BLOB_RETRIES || !Continues(server, from) {
      k := from;
    } else {
      k := LastAttempt(server, from + 1);
    }
  }

  /** What the loop ends with. */
  lemma ExchangeEnds(server: Server, k: nat)
    requires k <= BLOB_RETRIES && forall i :: 0 <= i < k ==> Continues(server, i)
    requires k < BLOB_RETRIES ==> !Continues(server, k)
    ensures Exchange(server, 0, "") ==
      if Clean(AnswerAt(server, k)) then Finished(FileAt(server, k + 1))
      else if Continues(server, k) then Exhausted(FileAt(server, k + 1))
      else GaveUp(FileAt(server, k + 1))
  {
    hide Exchange;
    ExchangeReaches(server, k);
    ExchangeStep(server, k, FileAt(server, k));
    if Continues(server, k) { ExchangeOver(server, FileAt(server, k + 1)); }
  }

  lemma ExchangeOver(server: Server, file: string)
    ensures Exchange(server, BLOB_RETRIES + 1, file) == Exhausted(file)
  {
  }

  /** Against a faithful server and an honest descriptor a download succeeds
      exactly when the answers to the requests it makes deliver the blob, and
      then with the blob. */
  lemma FetchedExactly(server: Server, blob: string, desc: Descriptor, digest: string -> string)
    requires Faithful(server, blob)
    requires desc.digest == digest(blob) && desc.size == |blob|
    ensures Fetched(Exchange(server, 0, ""), desc, digest) <==> Delivers(server, |blob|)
    ensures Fetched(Exchange(server, 0, ""), desc, digest) ==> Exchange(server, 0, "").file == blob
  {
    hide Exchange, Clean, Gained, Applied, Faithful, FileAt, Continues, Delivers, Fetched, AnswerAt;
    var x := Exchange(server, 0, "");
    ExchangeFaithful(server, 0, "", blob);
    assert x.file == blob[..|x.file|];
    var k := LastAttempt(server, 0);
    ExchangeEnds(server, k);
    ContinuesIs(server, k);
    DeliversAt(server, |blob|, k);
    FetchedIs(x, desc, digest);
    if Clean(AnswerAt(server, k)) {
      assert x.file == blob;
    } else if Continues(server, k) {
      assert k == BLOB_RETRIES && x.file == FileAt(server, k + 1);
      if |x.file| == |blob| { assert blob[..|blob|] == blob; }
      if |blob| == 0 { assert |x.file| == 0; }
    } else {
      assert x.GaveUp?;
    }
  }

  lemma FetchedIs(x: Transfer, desc: Descriptor, digest: string -> string)
    ensures Fetched(x, desc, digest)
      <==> !x.GaveUp? && (desc.size > 0 ==> |x.file| == desc.size) && digest(x.file) == desc.digest
  {
  }

  /** Whether the answers deliver is decided where the loop ends. */
  lemma DeliversAt(server: Server, size: int, k: nat)
    requires k <= BLOB_RETRIES && forall i :: 0 <= i < k ==> Continues(server, i)
    requires k < BLOB_RETRIES ==> !Continues(server, k)
    ensures Delivers(server, size)
      <==> Clean(AnswerAt(server, k))
           || (k == BLOB_RETRIES && Continues(server, k) && |FileAt(server, k + 1)| == size)
  {
    hide Clean, FileAt, Continues, AnswerAt;
    if j :| 0 <= j <= BLOB_RETRIES && (forall i :: 0 <= i < j ==> Continues(server, i)) && Clean(AnswerAt(server, j)) {
      ContinuesIs(server, j);
      assert j == k;
    }
  }

  lemma ContinuesIs(server: Server, k: nat)
    ensures Continues(server, k) ==> !Clean(AnswerAt(server, k))
  {
    hide Clean, AnswerAt, Gained;
  }

  /** The answers leave the blob in the file: up to some attempt every stream is
      cut after delivering something, and after the last one, or one that ends
      cleanly, the file is the blob. */
  ghost predicate Leaves(server: Server, blob: string) {
    exists k :: 0 <= k <= BLOB_RETRIES
      && (forall i :: 0 <= i < k ==> Continues(server, i))
      && (Clean(AnswerAt(server, k)) || (k == BLOB_RETRIES && Continues(server, k)))
      && FileAt(server, k + 1) == blob
  }

  /** Against any server, and with the size known or not, a download succeeds
      exactly when the answers leave the blob in the file, provided no other
      file they leave has the blob's digest. */
  lemma DigestDecides(server: Server, blob: string, desc: Descriptor, digest: string -> string)
    requires desc.digest == digest(blob) && (desc.size > 0 ==> desc.size == |blob|)
    requires forall k: nat :: digest(FileAt(server, k)) == desc.digest ==> FileAt(server, k) == blob
    ensures Fetched(Exchange(server, 0, ""), desc, digest) <==> Leaves(server, blob)
    ensures Fetched(Exchange(server, 0, ""), desc, digest) ==> Exchange(server, 0, "").file == blob
  {
    hide Exchange, Clean, Gained, Applied, FileAt, Continues;
    var k := LastAttempt(server, 0);
    ExchangeEnds(server, k);
    ContinuesIs(server, k);
    if j :| 0 <= j <= BLOB_RETRIES && (forall i :: 0 <= i < j ==> Continues(server, i)) && FileAt(server, j + 1) == blob
            && (Clean(AnswerAt(server, j)) || (j == BLOB_RETRIES && Continues(server, j))) {
      ContinuesIs(server, j);
      assert j == k;
    }
  }

  /** Steady progress arrives: when every request before attempt `last` is cut
      after delivering something and the one at `last` ends cleanly, the blob is
      whole. */
  lemma ProgressArrives(server: Server, last: nat, blob: string)
    requires last <= BLOB_RETRIES && Faithful(server, blob)
    requires forall k :: 0 <= k < last ==> Continues(server, k)
    requires Clean(AnswerAt(server, last))
    ensures Exchange(server, 0, "") == Finished(blob)
  {
    hide Exchange, Clean, Gained, Applied, Faithful, FileAt;
    ExchangeFaithful(server, 0, "", blob);
    ExchangeEnds(server, last);
  }

  /** A server that honours ranges and is cut after `chunk` bytes of every answer. */
  function Resuming(blob: string, chunk: nat): Server {
    (attempt: nat, offset: nat) =>
      if offset > |blob| then Reply(416, "", false)
      else
        var rest := blob[offset..];
        var body := if |rest| <= chunk then rest else rest[..chunk];
        Reply(if offset == 0 then 200 else 206, body, |rest| > chunk)
  }

  lemma ResumingFaithful(blob: string, chunk: nat)
    ensures Faithful(Resuming(blob, chunk), blob)
  {
    forall offset: nat | offset <= |blob| ensures blob[offset..] <= blob[offset..] {}
    assert blob[0..] == blob;
  }

  /** Such a download arrives exactly when the blob fits into the answers the
      retries allow. */
  lemma {:induction false} ResumingFrom(blob: string, chunk: nat, attempt: nat, file: string)
    requires chunk > 0 && attempt <= BLOB_RETRIES + 1
    requires file <= blob && (attempt == 0 ==> file == "") && (attempt > 0 ==> 0 < |file| < |blob|)
    ensures Exchange(Resuming(blob, chunk), attempt, file) == Finished(blob)
      <==> |blob| - |file| <= (BLOB_RETRIES + 1 - attempt) * chunk
    decreases BLOB_RETRIES + 1 - attempt
  {
    hide Exchange, Resuming, Applied, Clean, Gained;
    if attempt > BLOB_RETRIES {
      ExchangeOver(Resuming(blob, chunk), file);
    } else {
      var server, left := Resuming(blob, chunk), BLOB_RETRIES - attempt;
      ExchangeStep(server, attempt, file);
      ResumingStep(blob, chunk, attempt, file);
      assert (left + 1) * chunk == chunk + left * chunk && left * chunk >= 0;
      if |blob| - |file| > chunk {
        ResumingFrom(blob, chunk, attempt + 1, blob[..|file| + chunk]);
      }
    }
  }

  lemma ResumingStep(blob: string, chunk: nat, attempt: nat, file: string)
    requires chunk > 0 && file <= blob
    ensures
      var resp := Resuming(blob, chunk)(attempt, |file|);
      if |blob| - |file| <= chunk then Clean(resp) && Applied(file, resp) == blob
      else !Clean(resp) && Gained(resp) == chunk && Applied(file, resp) == blob[..|file| + chunk]
  {
    var rest := blob[|file|..];
    assert blob == file + rest;
    if |rest| > chunk { assert file + rest[..chunk] == blob[..|file| + chunk]; }
  }

  lemma ResumingArrives(blob: string, chunk: nat)
    requires chunk > 0
    ensures Faithful(Resuming(blob, chunk), blob)
    ensures Exchange(Resuming(blob, chunk), 0, "") == Finished(blob) <==> |blob| <= 6 * chunk
  {
    hide Exchange, Resuming, Faithful;
    ResumingFaithful(blob, chunk);
    ResumingFrom(blob, chunk, 0, "");
  }

  /** How a whole blob is lost: its last byte arrives on a stream that then
      fails, and the answer to the range past the end brings nothing and does
      not end cleanly; a refusal is one such answer. */
  lemma WholeThenLost(server: Server, attempt: nat, file: string, blob: string, desc: Descriptor,
                      digest: string -> string)
    requires attempt < BLOB_RETRIES
    requires var resp := server(attempt, |file|);
      !Clean(resp) && Gained(resp) > 0 && Applied(file, resp) == blob
    requires Gained(server(attempt + 1, |blob|)) == 0 && !Clean(server(attempt + 1, |blob|))
    ensures Exchange(server, attempt, file).GaveUp?
    ensures !Fetched(Exchange(server, attempt, file), desc, digest)
  {
    assert Exchange(server, attempt + 1, blob).GaveUp?;
  }

  /** A faithful server that loses the blob "x" so: all of it on a stream that
      fails, and then the empty range refused. */
  lemma WholeThenRefused(digest: string -> string)
    ensures
      var server: Server := (attempt, offset) => if offset == 0 then Reply(200, "x", true) else Reply(416, "", false);
      && Faithful(server, "x") && FileAt(server, 1) == "x"
      && !Fetched(Exchange(server, 0, ""), Descriptor(1, digest("x")), digest)
  {
    var server: Server := (attempt, offset) => if offset == 0 then Reply(200, "x", true) else Reply(416, "", false);
    assert Applied("", server(0, 0)) == "x";
    WholeThenLost(server, 0, "", "x", Descriptor(1, digest("x")), digest);
  }
}
