/**
 * Fetching model files: download jobs, the retry policy, one download attempt
 * against a file store (temporary file, length check, rename), the byte total
 * over completed downloads and the unit chosen to print a byte count.
 *
 * The network is an input: the transport's behaviour is given as the sequence
 * of attempt outcomes, or as the response an attempt receives.
 */
module Net {
  import opened Wrappers
  import opened Strings

  const DownloadUrlPrefix := "https://veai-models.topazlabs.com/"

  // ---------------------------------------------------------------------------
  // Download jobs

  /** Where the base name starts: just after the last '/', or 0 when there is none. */
  function NameStart(path: string): (k: nat)
    ensures k <= |path|
    ensures forall i :: k <= i < |path| ==> path[i] != '/'
    ensures k > 0 ==> path[k - 1] == '/'
    decreases |path|
  {
    if path == "" || path[|path| - 1] == '/' then |path|
    else NameStart(path[..|path| - 1])
  }

  /** `os.path.basename` with '/' as the separator: the text after the last '/'. */
  function Basename(path: string): (name: string)
    ensures '/' !in name
    ensures |name| <= |path| && path[|path| - |name|..] == name
    ensures |name| < |path| ==> path[|path| - |name| - 1] == '/'
  {
    path[NameStart(path)..]
  }

  /** The job generator: each file paired with the URL prefix plus its base name. */
  function DownloadJobs(files: seq<string>): (jobs: seq<(string, string)>)
    ensures |jobs| == |files|
    ensures forall i :: 0 <= i < |files| ==> jobs[i] == (DownloadUrlPrefix + Basename(files[i]), files[i])
  {
    seq(|files|, i requires 0 <= i < |files| => (DownloadUrlPrefix + Basename(files[i]), files[i]))
  }

  /** Every URL is the prefix followed by a single path segment. */
  lemma JobUrlIsOneSegment(files: seq<string>, i: nat)
    requires i < |files|
    ensures var url := DownloadJobs(files)[i].0;
            IsPrefix(DownloadUrlPrefix, url) && '/' !in url[|DownloadUrlPrefix|..]
  {
    var url := DownloadJobs(files)[i].0;
    assert url[|DownloadUrlPrefix|..] == Basename(files[i]);
  }

  // ---------------------------------------------------------------------------
  // scale_unit

  datatype Unit = Bytes | KiB | MiB | GiB

  function Divisor(u: Unit): nat {
    match u
    case Bytes => 1
    case KiB => 0x400
    case MiB => 0x10_0000
    case GiB => 0x4000_0000
  }

  /** The unit `scale_unit` prints a count in; each threshold is a strict comparison. */
  function ScaleUnit(nbytes: int): (u: Unit)
    ensures u == Bytes || Divisor(u) < nbytes
    ensures u == GiB || nbytes <= 0x400 * Divisor(u)
  {
    if nbytes > 0x4000_0000 then GiB
    else if nbytes > 0x10_0000 then MiB
    else if nbytes > 0x400 then KiB
    else Bytes
  }

  /** The text for a count below the KiB threshold: the count itself and " B". */
  function ByteText(nbytes: int): (t: string)
    requires ScaleUnit(nbytes) == Bytes
    ensures |t| >= 2 && t[|t| - 2..] == " B"
    ensures IsIntText(t[..|t| - 2]) && ParseInt(t[..|t| - 2]) == nbytes
  {
    IntToStringRoundTrip(nbytes);
    var t := IntToString(nbytes) + " B";
    assert t[..|t| - 2] == IntToString(nbytes);
    t
  }

  /** A larger count never gets a smaller unit. */
  lemma ScaleUnitMonotone(a: int, b: int)
    requires a <= b
    ensures Divisor(ScaleUnit(a)) <= Divisor(ScaleUnit(b))
  {
  }

  /** Exactly 1024 bytes stays in bytes. */
  lemma ScaleUnitAt1024()
    ensures ScaleUnit(1024) == Bytes && ByteText(1024) == "1024 B"
  {
    assert NatToString(1024) == NatToString(102) + ['4'];
    assert NatToString(102) == NatToString(10) + ['2'];
    assert NatToString(10) == NatToString(1) + ['0'];
  }

  // ---------------------------------------------------------------------------
  // retry

  /** What an attempt can raise: `HTTPError`, `ContentTooShortError` or anything else. */
  datatype Failure = HttpError(code: int) | ContentTooShort(expected: int, got: nat) | OtherError(kind: string)

  datatype Attempt<T> = Returns(value: T) | Raises(failure: Failure)

  /** What the wrapped call gives its caller; zero tries fall off the loop and return `None`. */
  datatype CallResult<T> = Value(value: T) | Raised(failure: Failure) | NoneReturned

  /** The exceptions the retry loop catches. */
  predicate Caught(f: Failure) {
    f.HttpError? || f.ContentTooShort?
  }

  /** A client error other than 408 and 429 is re-raised at once. */
  predicate Terminal(f: Failure) {
    f.HttpError? && 400 <= f.code < 500 && f.code != 408 && f.code != 429
  }

  predicate Retriable<T>(a: Attempt<T>) {
    a.Raises? && Caught(a.failure) && !Terminal(a.failure)
  }

  function Outcome<T>(a: Attempt<T>): CallResult<T> {
    match a
    case Returns(v) => Value(v)
    case Raises(f) => Raised(f)
  }

  function Pow(b: int, k: nat): int {
    if k == 0 then 1 else b * Pow(b, k - 1)
  }

  lemma PowStep(w: int, b: int, k: nat)
    ensures w * Pow(b, k) * b == w * Pow(b, k + 1)
  {
    calc {
      w * Pow(b, k) * b;
      w * (Pow(b, k) * b);
      w * (b * Pow(b, k));
    }
  }

  /**
   * The `retry` decorator around a call whose k-th attempt yields `call(k)`.
   * `calls` is how many attempts were made, `sleeps` the waits between them.
   */
  method Retry<T>(maxTries: int, initialWait: int, backoff: int, call: nat -> Attempt<T>)
    returns (result: CallResult<T>, calls: nat, sleeps: seq<int>)
    ensures maxTries <= 0 ==> calls == 0 && result == NoneReturned && sleeps == []
    ensures maxTries > 0 ==> 1 <= calls <= maxTries && |sleeps| == calls - 1
    ensures maxTries > 0 ==> result == Outcome(call(calls - 1))
    ensures forall k :: 0 <= k < |sleeps| ==> sleeps[k] == initialWait * Pow(backoff, k)
    ensures forall k :: 0 <= k < calls - 1 ==> Retriable(call(k))
    ensures 0 < calls < maxTries ==> !Retriable(call(calls - 1))
  {
    var waitDuration := initialWait;
    result, calls, sleeps := NoneReturned, 0, [];
    var attempt := 0;
    while attempt < maxTries
      invariant 0 <= attempt && calls == attempt && |sleeps| == attempt
      invariant maxTries > 0 ==> attempt < maxTries
      invariant maxTries <= 0 ==> attempt == 0
      invariant waitDuration == initialWait * Pow(backoff, attempt)
      invariant forall k :: 0 <= k < |sleeps| ==> sleeps[k] == initialWait * Pow(backoff, k)
      invariant forall k :: 0 <= k < attempt ==> Retriable(call(k))
      decreases maxTries - attempt
    {
      var outcome := call(attempt);
      calls := calls + 1;
      match outcome
      case Returns(v) =>
        return Value(v), calls, sleeps;
      case Raises(f) =>
        if !Caught(f) || Terminal(f) || attempt == maxTries - 1 {
          return Raised(f), calls, sleeps;
        }
        sleeps := sleeps + [waitDuration];
        PowStep(initialWait, backoff, attempt);
        waitDuration := waitDuration * backoff;
        attempt := attempt + 1;
    }
  }

  /** `download_file`'s policy: five tries, one second, factor three. */
  const DownloadMaxTries := 5
  const DownloadInitialWait := 1
  const DownloadBackoff := 3

  /** Its waits are 1, 3, 9 and 27 seconds, at most four of them. */
  lemma DownloadFileSchedule()
    ensures seq(DownloadMaxTries - 1, k requires 0 <= k => DownloadInitialWait * Pow(DownloadBackoff, k))
            == [1, 3, 9, 27]
  {
    assert Pow(3, 3) == 27;
  }

  // ---------------------------------------------------------------------------
  // download_file: one attempt

  newtype byte = x: int | 0 <= x < 256

  /**
   * What `urlopen` gives: an error, or a body read chunk by chunk, with its content-length
   * if sent. When `cutOff` is present, the read after the last chunk raises it.
   */
  datatype Response =
    | Refused(failure: Failure)
    | Body(contentLength: Option<int>, chunks: seq<seq<byte>>, cutOff: Option<Failure>)

  /** The chunks the read loop consumes: those before the first empty read. */
  function StreamBody(chunks: seq<seq<byte>>): (body: seq<seq<byte>>)
    ensures |body| <= |chunks| && body == chunks[..|body|]
    ensures forall i :: 0 <= i < |body| ==> body[i] != []
    ensures |body| < |chunks| ==> chunks[|body|] == []
  {
    if chunks == [] || chunks[0] == [] then [] else [chunks[0]] + StreamBody(chunks[1..])
  }

  /** The read loop stopping at `i` has consumed exactly the stream body. */
  lemma {:induction false} StreamBodyIsPrefix(chunks: seq<seq<byte>>, i: nat)
    requires i <= |chunks| && (i == |chunks| || chunks[i] == [])
    requires forall k :: 0 <= k < i ==> chunks[k] != []
    ensures StreamBody(chunks) == chunks[..i]
    decreases i
  {
    if i > 0 {
      StreamBodyIsPrefix(chunks[1..], i - 1);
      assert chunks[..i] == [chunks[0]] + chunks[1..][..i - 1];
    }
  }

  function Flatten(chunks: seq<seq<byte>>): seq<byte> {
    if chunks == [] then [] else chunks[0] + Flatten(chunks[1..])
  }

  /** The sum of the chunk lengths. */
  function TotalLength(chunks: seq<seq<byte>>): nat {
    if chunks == [] then 0 else |chunks[0]| + TotalLength(chunks[1..])
  }

  lemma {:induction false} FlattenLength(chunks: seq<seq<byte>>)
    ensures |Flatten(chunks)| == TotalLength(chunks)
    decreases |chunks|
  {
    if chunks != [] { FlattenLength(chunks[1..]); }
  }

  lemma {:induction false} FlattenSnoc(chunks: seq<seq<byte>>, c: seq<byte>)
    ensures Flatten(chunks + [c]) == Flatten(chunks) + c
    decreases |chunks|
  {
    if chunks == [] {
      assert [] + [c] == [c];
    } else {
      assert (chunks + [c])[1..] == chunks[1..] + [c];
      FlattenSnoc(chunks[1..], c);
    }
  }

  function TempName(filename: string): string {
    filename + ".incomplete"
  }

  /** The files under the model directory, by path. */
  class FileStore {
    var files: map<string, seq<byte>>

    constructor (initial: map<string, seq<byte>>)
      ensures files == initial
    {
      files := initial;
    }

    /**
     * The read loop of `download_file`: each non-empty chunk is appended to `temp` until
     * the first empty read. A read that fails after the last chunk raises `cutOff`.
     */
    method WriteStream(temp: string, chunks: seq<seq<byte>>, cutOff: Option<Failure>)
      returns (failure: Option<Failure>, bytesWritten: nat)
      modifies this
      ensures files == old(files)[temp := Flatten(StreamBody(chunks))]
      ensures bytesWritten == |Flatten(StreamBody(chunks))| == TotalLength(StreamBody(chunks))
      ensures failure == if |StreamBody(chunks)| == |chunks| then cutOff else None
    {
      files := files[temp := []];
      bytesWritten := 0;
      var i := 0;
      while true
        invariant 0 <= i <= |chunks|
        invariant forall k :: 0 <= k < i ==> chunks[k] != []
        invariant files == old(files)[temp := Flatten(chunks[..i])]
        invariant bytesWritten == |Flatten(chunks[..i])|
        decreases |chunks| - i
      {
        if i == |chunks| && cutOff.Some? {
          StreamBodyIsPrefix(chunks, i);
          FlattenLength(chunks[..i]);
          return cutOff, bytesWritten;
        }
        var chunk := if i < |chunks| then chunks[i] else [];
        if chunk == [] {
          break;
        }
        FlattenSnoc(chunks[..i], chunk);
        assert chunks[..i + 1] == chunks[..i] + [chunk];
        files := files[temp := files[temp] + chunk];
        bytesWritten := bytesWritten + |chunk|;
        i := i + 1;
      }
      StreamBodyIsPrefix(chunks, i);
      FlattenLength(chunks[..i]);
      return None, bytesWritten;
    }

    /**
     * One attempt of `download_file`. The body goes to the temporary file; only a body
     * whose length matches the content-length (or one sent without it) is renamed to
     * `filename`. While streaming, after a failed read and after a short body, `filename`
     * is untouched and the temporary file holds what was read.
     */
    method DownloadFile(filename: string, response: Response) returns (outcome: Attempt<nat>)
      modifies this
      ensures response.Refused? ==> outcome == Raises(response.failure) && files == old(files)
      ensures response.Body? ==>
                var body := StreamBody(response.chunks);
                var data := Flatten(body);
                var temp := TempName(filename);
                if |body| == |response.chunks| && response.cutOff.Some? then
                  && outcome == Raises(response.cutOff.value)
                  && files == old(files)[temp := data]
                else if response.contentLength.Some? && response.contentLength.value != |data| then
                  && outcome == Raises(ContentTooShort(response.contentLength.value, |data|))
                  && files == old(files)[temp := data]
                else
                  && outcome == Returns(TotalLength(StreamBody(response.chunks)))
                  && files == (old(files) - {temp})[filename := data]
    {
      if response.Refused? {
        return Raises(response.failure);
      }
      var temp := TempName(filename);
      var failure, bytesWritten := WriteStream(temp, response.chunks, response.cutOff);
      if failure.Some? {
        return Raises(failure.value);
      }
      var data := files[temp];
      if response.contentLength.Some? && response.contentLength.value != bytesWritten {
        return Raises(ContentTooShort(response.contentLength.value, bytesWritten));
      }
      files := (files - {temp})[filename := data];
      return Returns(bytesWritten);
    }
  }

  // ---------------------------------------------------------------------------
  // download_model_files: the byte total over completed downloads

  /** How the download run ends: nothing to do, all done, or exit on the first failure. */
  datatype Report = NothingToDownload | Completed(totalBytes: nat) | Exited(failure: Failure)

  /** The index of the first failed outcome, or the length when none failed. */
  function FirstFailure(outcomes: seq<Attempt<nat>>): (k: nat)
    ensures k <= |outcomes|
    ensures forall i :: 0 <= i < k ==> outcomes[i].Returns?
    ensures k < |outcomes| ==> outcomes[k].Raises?
  {
    if outcomes == [] || outcomes[0].Raises? then 0 else 1 + FirstFailure(outcomes[1..])
  }

  /** The bytes of the successful outcomes. */
  function SumBytes(outcomes: seq<Attempt<nat>>): nat {
    if outcomes == [] then 0
    else (if outcomes[0].Returns? then outcomes[0].value else 0) + SumBytes(outcomes[1..])
  }

  lemma {:induction false} SumBytesSnoc(outcomes: seq<Attempt<nat>>, o: Attempt<nat>)
    ensures SumBytes(outcomes + [o]) == SumBytes(outcomes) + (if o.Returns? then o.value else 0)
    decreases |outcomes|
  {
    if outcomes == [] {
      assert [] + [o] == [o];
    } else {
      assert (outcomes + [o])[1..] == outcomes[1..] + [o];
      SumBytesSnoc(outcomes[1..], o);
    }
  }

  /**
   * The loop over completed futures, `outcomes` in completion order: bytes are added
   * up until the first failure, which ends the run.
   */
  method DownloadModelFiles(outcomes: seq<Attempt<nat>>) returns (report: Report)
    ensures outcomes == [] ==> report == NothingToDownload
    ensures outcomes != [] && FirstFailure(outcomes) == |outcomes| ==> report == Completed(SumBytes(outcomes))
    ensures FirstFailure(outcomes) < |outcomes| ==> report == Exited(outcomes[FirstFailure(outcomes)].failure)
  {
    if outcomes == [] {
      return NothingToDownload;
    }
    var total: nat := 0;
    var i := 0;
    while i < |outcomes|
      invariant 0 <= i <= |outcomes|
      invariant forall k :: 0 <= k < i ==> outcomes[k].Returns?
      invariant total == SumBytes(outcomes[..i])
    {
      match outcomes[i]
      case Raises(f) =>
        return Exited(f);
      case Returns(n) =>
        SumBytesSnoc(outcomes[..i], outcomes[i]);
        assert outcomes[..i + 1] == outcomes[..i] + [outcomes[i]];
        total := total + n;
        i := i + 1;
    }
    assert outcomes[..i] == outcomes;
    return Completed(total);
  }

  lemma {:induction false} SumBytesRemove(outcomes: seq<Attempt<nat>>, k: nat)
    requires k < |outcomes|
    ensures SumBytes(outcomes) == (if outcomes[k].Returns? then outcomes[k].value else 0)
                                  + SumBytes(outcomes[..k] + outcomes[k + 1..])
    decreases k
  {
    if k > 0 {
      SumBytesRemove(outcomes[1..], k - 1);
      assert outcomes[1..][..k - 1] + outcomes[1..][k..] == (outcomes[..k] + outcomes[k + 1..])[1..];
    } else {
      assert outcomes[..0] + outcomes[1..] == outcomes[1..];
    }
  }

  /** The total does not depend on the order in which downloads complete. */
  lemma {:induction false} SumBytesPermutation(a: seq<Attempt<nat>>, b: seq<Attempt<nat>>)
    requires multiset(a) == multiset(b)
    ensures SumBytes(a) == SumBytes(b)
    decreases |a|
  {
    if a != [] {
      assert a[0] in multiset(b);
      var k :| 0 <= k < |b| && b[k] == a[0];
      var rest := b[..k] + b[k + 1..];
      assert multiset(a[1..]) == multiset(a) - multiset{a[0]} by {
        assert a == [a[0]] + a[1..];
      }
      assert multiset(rest) == multiset(b) - multiset{b[k]} by {
        assert b == b[..k] + [b[k]] + b[k + 1..];
        assert multiset(b) == multiset(b[..k]) + multiset{b[k]} + multiset(b[k + 1..]);
      }
      SumBytesRemove(b, k);
      SumBytesPermutation(a[1..], rest);
    } else {
      assert |b| == 0;
    }
  }
}
