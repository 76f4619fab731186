/** The download retry loop of `download.rs`, against an adversary that chooses every answer. */
module Download {
  import opened Common

  const DEFAULT_MAX_BYTES: nat := 500 * 1024 * 1024
  const ABSOLUTE_MAX_BYTES: nat := 2 * 1024 * 1024 * 1024

  datatype Error =
    | InvalidQuery
    | AlreadyExists
    | FileTooLarge(limit: nat)
    | Http(status: nat, retryAfter: Option<nat>)
    | Network(message: string)
    | Io
    | Refused(reason: string)

  /** How a body ends once its chunks have arrived. */
  datatype Ending =
    | Complete
    | Dropped(message: string)
    | WriteFails(chunk: Bytes, kept: nat)
    | SyncFails

  /**
   * One answer, with everything around it that the loop does not control:
   * what the disk refuses, and what another program leaves at the
   * destination, while the answer arrives (`during`) or between the last
   * look at the destination and the rename (`window`).
   */
  datatype Answer = Answer(reply: Reply, during: Option<Bytes>, window: Option<Bytes>)

  datatype Reply =
    | NoResponse(error: Error)
    | Response(status: nat, retryAfter: Option<nat>, length: Option<nat>, body: Body)

  datatype Body = Body(createFails: bool, chunks: seq<Bytes>, ending: Ending, renameFails: bool)

  type Net = nat -> Answer

  datatype Files = Files(dest: Option<Bytes>, partial: Option<Bytes>)

  // ---- What the answers alone decide ----

  /** `None` takes the default, zero and anything too large the absolute cap. */
  function Clamped(requested: Option<nat>): (max: nat)
    ensures requested == None ==> max == 524_288_000
    ensures forall n :: requested == Some(n) && 1 <= n <= 2_147_483_648 ==> max == n
    ensures forall n :: requested == Some(n) && (n == 0 || n > 2_147_483_648) ==> max == 2_147_483_648
  {
    match requested
    case None => DEFAULT_MAX_BYTES
    case Some(v) => if v == 0 || v > ABSOLUTE_MAX_BYTES then ABSOLUTE_MAX_BYTES else v
  }

  function Self(b: Bytes): Bytes { b }

  function All(chunks: seq<Bytes>): Bytes { Concat(chunks, Self) }

  /** Every byte the network delivered, whether or not the disk took it. */
  function Delivered(b: Body): nat {
    |All(b.chunks)| + if b.ending.WriteFails? then |b.ending.chunk| else 0
  }

  datatype Streamed = Written(n: nat) | TooLarge | Broken(message: string) | DiskError

  /** What storing a body comes to, judged by its total size on a 64-bit counter. */
  function Stored(b: Body, max: nat): Streamed {
    if b.createFails then DiskError
    else if Capped(Delivered(b)) > max then TooLarge
    else match b.ending
      case Complete => Written(Capped(|All(b.chunks)|))
      case Dropped(m) => Broken(m)
      case _ => DiskError
  }

  predicate IsSuccess(status: nat) { 200 <= status < 300 }

  predicate IsServerError(status: nat) { 500 <= status < 600 }

  predicate DeclaredTooLarge(length: Option<nat>, max: nat) { length.Some? && length.value > max }

  /** The body of this answer is read. */
  predicate ReachesBody(r: Reply, max: nat) {
    r.Response? && IsSuccess(r.status) && !DeclaredTooLarge(r.length, max)
  }

  /** Worth another attempt. */
  predicate Transient(r: Reply, max: nat) {
    match r
    case NoResponse(e) => e.Network?
    case Response(status, _, _, body) =>
      IsServerError(status) || (ReachesBody(r, max) && Stored(body, max).Broken?)
  }

  /** The body of this answer is complete on disk. */
  predicate Arrives(r: Reply, max: nat) { ReachesBody(r, max) && Stored(r.body, max).Written? }

  /** The result if this answer is the last. */
  function Verdict(a: Answer, max: nat, present: bool): Result<nat, Error> {
    match a.reply
    case NoResponse(e) => Err(e)
    case Response(status, retryAfter, length, body) =>
      if !IsSuccess(status) then Err(Http(status, if status == 429 then retryAfter else None))
      else if DeclaredTooLarge(length, max) then Err(FileTooLarge(max))
      else match Stored(body, max)
        case TooLarge => Err(FileTooLarge(max))
        case Broken(m) => Err(Network(m))
        case DiskError => Err(Io)
        case Written(n) =>
          if present then Err(AlreadyExists)
          else if body.renameFails then Err(if a.window.Some? then AlreadyExists else Io)
          else Ok(n)
  }

  /** The attempt whose answer is final. */
  function Decider(net: Net, max: nat, retries: nat, from: nat): nat
    requires from <= retries
    decreases retries - from
  {
    if from == retries || !Transient(net(from).reply, max) then from else Decider(net, max, retries, from + 1)
  }

  /** The final answer is the first that is not transient, or the last one allowed. */
  lemma {:induction false} DeciderIsFirst(net: Net, max: nat, retries: nat, from: nat)
    requires from <= retries
    ensures var k := Decider(net, max, retries, from);
            from <= k <= retries && (k == retries || !Transient(net(k).reply, max))
            && forall i :: from <= i < k ==> Transient(net(i).reply, max)
    decreases retries - from
  {
    if from < retries && Transient(net(from).reply, max) { DeciderIsFirst(net, max, retries, from + 1); }
  }

  /** Another program's file, unless one is there already. */
  function Placed(dest: Option<Bytes>, put: Option<Bytes>): Option<Bytes> { if dest.Some? then dest else put }

  /** The destination after the answers `0..n`, as far as other programs are concerned. */
  function PlacedBy(net: Net, n: nat): Option<Bytes> {
    if n == 0 then None else Placed(PlacedBy(net, n - 1), net(n - 1).during)
  }

  /** The destination as the final attempt leaves it. */
  function FinalDest(a: Answer, max: nat, dest: Option<Bytes>): Option<Bytes> {
    if Verdict(a, max, dest.Some?).Ok? then Some(All(a.reply.body.chunks))
    else if dest.None? && Arrives(a.reply, max) then a.window
    else dest
  }

  /** The rename lands on a different file that appeared after the last look. */
  predicate Overwrites(a: Answer, max: nat, dest: Option<Bytes>) {
    && Arrives(a.reply, max) && !a.reply.body.renameFails && dest.None?
    && a.window.Some? && a.window.value != All(a.reply.body.chunks)
  }

  /** Success means exactly: a whole body within the cap, and nobody's file in the way. */
  lemma SuccessIsTheWholeBody(a: Answer, max: nat, dest: Option<Bytes>)
    ensures var v := Verdict(a, max, dest.Some?);
            (v.Ok? <==> Arrives(a.reply, max) && dest.None? && !a.reply.body.renameFails)
            && (v.Ok? ==> FinalDest(a, max, dest) == Some(All(a.reply.body.chunks))
                          && v.value == Capped(|All(a.reply.body.chunks)|) <= max
                          && a.reply.body.ending.Complete? && !a.reply.body.createFails)
            && (v.Err? && dest.Some? ==> FinalDest(a, max, dest) == dest)
  {
    if a.reply.Response? { var s := Stored(a.reply.body, max); }
  }

  /** The body, judged by what was announced and by what came, stays within the cap. */
  predicate KeepsTheCap(length: Option<nat>, body: Body, max: nat) {
    && (length.Some? ==> length.value <= max)
    && (Delivered(body) <= max || max >= MAX_U64)
  }

  /** Asked again: no answer from the network, a status from 500 to 599, and a body cut short within the cap. */
  lemma TransientMeans(r: Reply, max: nat)
    ensures Transient(r, max) <==>
              || (r.NoResponse? && r.error.Network?)
              || (r.Response? && r.status / 100 == 5)
              || (r.Response? && r.status / 100 == 2 && !r.body.createFails && r.body.ending.Dropped?
                  && KeepsTheCap(r.length, r.body, max))
  {
  }

  /** What an answer that cannot be stored is reported as. */
  lemma FailuresMean(a: Answer, max: nat, present: bool)
    ensures
      var v := Verdict(a, max, present);
      match a.reply
      case NoResponse(e) => v == Err(e)
      case Response(status, retryAfter, length, body) =>
        if status / 100 != 2 then v == Err(Http(status, if status == 429 then retryAfter else None))
        else if length.Some? && length.value > max then v == Err(FileTooLarge(max))
        else if body.createFails then v == Err(Io)
        else if !KeepsTheCap(length, body, max) then v == Err(FileTooLarge(max))
        else if body.ending.Dropped? then v == Err(Network(body.ending.message))
        else if !body.ending.Complete? then v == Err(Io)
        else if present then v == Err(AlreadyExists)
        else v.Err? <==> body.renameFails
  {
  }

  /** The late look does not close the race: a file that appears after it is lost. */
  lemma LateFileIsOverwritten(mine: Byte, theirs: Byte)
    requires mine != theirs
    ensures Overwrites(
              Answer(Response(200, None, None, Body(false, [[mine]], Complete, false)), None, Some([theirs])), 1, None)
  {
    assert [[mine]] == [] + [[mine]];
    ConcatSnoc([], [mine], Self);
    assert All([[mine]]) == [mine];
    assert [mine][0] != [theirs][0];
  }

  /** The call gets as far as its first fetch. */
  predicate Fetches(valid: bool, hasSegments: bool, max: nat, expectedSize: Option<nat>, dest: Option<Bytes>) {
    valid && hasSegments && !DeclaredTooLarge(expectedSize, max) && dest.None?
  }

  // ---- What holds at every moment ----

  predicate Small(p: Option<Bytes>, stale: Option<Bytes>, max: nat) {
    p == stale || p.None? || Capped(|p.value|) <= max
  }

  /** In every state the partial file is a leftover from before, or its 64-bit size is within the cap. */
  predicate AlwaysSmall(trail: seq<Files>, stale: Option<Bytes>, max: nat) {
    forall i :: 0 <= i < |trail| ==> Small(trail[i].partial, stale, max)
  }

  predicate Keeps(before: Files, after: Files) { before.dest.Some? ==> after.dest == before.dest }

  /** A destination that exists in one state is the same in every later one. */
  predicate NeverReplaced(trail: seq<Files>) {
    forall i, j :: 0 <= i < j < |trail| ==> Keeps(trail[i], trail[j])
  }

  lemma NeverReplacedSnoc(trail: seq<Files>, f: Files)
    requires |trail| > 0 && NeverReplaced(trail) && Keeps(trail[|trail| - 1], f)
    ensures NeverReplaced(trail + [f])
  {
    var n := |trail|;
    forall i, j | 0 <= i < j < |trail + [f]| ensures Keeps((trail + [f])[i], (trail + [f])[j]) {
      assert (trail + [f])[i] == trail[i];
      if j == n {
        if i < n - 1 { assert Keeps(trail[i], trail[n - 1]); }
        assert (trail + [f])[n] == f;
      }
    }
  }

  lemma AlwaysSmallSnoc(trail: seq<Files>, f: Files, stale: Option<Bytes>, max: nat)
    requires AlwaysSmall(trail, stale, max) && Small(f.partial, stale, max)
    ensures AlwaysSmall(trail + [f], stale, max)
  {
  }

  /** A replaced destination spoils the trail for good. */
  lemma ReplacedShows(trail: seq<Files>, f: Files)
    requires |trail| > 0 && !Keeps(trail[|trail| - 1], f)
    ensures !NeverReplaced(trail + [f])
  {
    var n := |trail|;
    assert (trail + [f])[n - 1] == trail[n - 1] && (trail + [f])[n] == f;
  }

  lemma {:induction false} PrefixIsNoLonger(chunks: seq<Bytes>, i: nat)
    requires i <= |chunks|
    ensures |All(chunks[..i])| <= |All(chunks)|
    decreases |chunks| - i
  {
    if i < |chunks| {
      TakeNext(chunks, i);
      ConcatSnoc(chunks[..i], chunks[i], Self);
      PrefixIsNoLonger(chunks, i + 1);
    } else {
      assert chunks[..i] == chunks;
    }
  }

  /** The counter passes the cap at some chunk exactly when the whole body does. */
  lemma CapIsAboutTotals(chunks: seq<Bytes>, max: nat)
    ensures (exists i :: 0 <= i <= |chunks| && Capped(|All(chunks[..i])|) > max) <==> Capped(|All(chunks)|) > max
  {
    assert chunks[..|chunks|] == chunks;
    forall i | 0 <= i <= |chunks| ensures |All(chunks[..i])| <= |All(chunks)| {
      PrefixIsNoLonger(chunks, i);
    }
  }

  /** What the chunk loop stores is what came, so far. */
  lemma AllNext(chunks: seq<Bytes>, i: nat)
    requires i < |chunks|
    ensures All(chunks[..i + 1]) == All(chunks[..i]) + chunks[i]
  {
    TakeNext(chunks, i);
    ConcatSnoc(chunks[..i], chunks[i], Self);
  }

  // ---- The code ----

  class Downloader {
    var dest: Option<Bytes>
    var partial: Option<Bytes>
    /** Every state of the two files since the call began. */
    ghost var trail: seq<Files>
    ghost var start: Files
    ghost var cap: nat

    ghost function Now(): Files reads this { Files(dest, partial) }

    ghost predicate Valid() reads this {
      && |trail| > 0 && trail[0] == start && trail[|trail| - 1] == Now()
      && NeverReplaced(trail) && AlwaysSmall(trail, start.partial, cap)
    }

    /** Every change of the two files goes through here. */
    method Become(d: Option<Bytes>, p: Option<Bytes>)
      requires Valid() && Small(p, start.partial, cap) && Keeps(Now(), Files(d, p))
      modifies this
      ensures Valid() && dest == d && partial == p && start == old(start) && cap == old(cap)
    {
      NeverReplacedSnoc(trail, Files(d, p));
      AlwaysSmallSnoc(trail, Files(d, p), start.partial, cap);
      dest, partial := d, p;
      trail := trail + [Now()];
    }

    method RemovePartialQuiet()
      requires Valid()
      modifies this
      ensures Valid() && dest == old(dest) && partial == None && start == old(start) && cap == old(cap)
    {
      Become(dest, None);
    }

    method Observe(put: Option<Bytes>)
      requires Valid()
      modifies this
      ensures Valid() && dest == Placed(old(dest), put) && partial == old(partial)
      ensures start == old(start) && cap == old(cap)
    {
      Become(Placed(dest, put), partial);
    }

    method StreamToPartial(body: Body, max: nat) returns (end: Streamed)
      requires Valid() && max == cap
      modifies this
      ensures Valid() && dest == old(dest) && start == old(start) && cap == old(cap)
      ensures end == Stored(body, max)
      ensures end.Written? ==> partial == Some(All(body.chunks))
    {
      if body.createFails { return DiskError; }
      Become(dest, Some([]));
      var written := 0;
      var i := 0;
      while i < |body.chunks|
        invariant i <= |body.chunks| && Valid() && dest == old(dest) && start == old(start) && cap == old(cap)
        invariant partial == Some(All(body.chunks[..i])) && written == Capped(|All(body.chunks[..i])|) <= max
      {
        AllNext(body.chunks, i);
        PrefixIsNoLonger(body.chunks, i + 1);
        written := SaturatingAdd(written, |body.chunks[i]|);
        if written > max { return TooLarge; }
        Become(dest, Some(partial.value + body.chunks[i]));
        i := i + 1;
      }
      assert body.chunks[..i] == body.chunks;
      match body.ending {
        case Complete => return Written(written);
        case Dropped(m) => return Broken(m);
        case SyncFails => return DiskError;
        case WriteFails(chunk, kept) =>
          written := SaturatingAdd(written, |chunk|);
          if written > max { return TooLarge; }
          Become(dest, Some(partial.value + if kept < |chunk| then chunk[..kept] else chunk));
          return DiskError;
      }
    }

    /** One answer with a success status and an acceptable length, up to its result. */
    method Receive(a: Answer, max: nat) returns (end: Streamed, result: Result<nat, Error>)
      requires Valid() && max == cap && ReachesBody(a.reply, max)
      modifies this
      ensures start == old(start) && cap == old(cap)
      ensures end == Stored(a.reply.body, max)
      ensures partial == None
      ensures result == Verdict(a, max, old(dest).Some?)
      ensures dest == FinalDest(a, max, old(dest))
      ensures |trail| > 0 && trail[|trail| - 1] == Now() && AlwaysSmall(trail, start.partial, cap) && trail[0] == start
      ensures NeverReplaced(trail) <==> !Overwrites(a, max, old(dest))
    {
      var body := a.reply.body;
      end := StreamToPartial(body, max);
      match end {
        case Written(n) =>
          if dest.Some? {
            RemovePartialQuiet();
            return end, Err(AlreadyExists);
          }
          Observe(a.window);
          if body.renameFails {
            var there := dest.Some?;
            RemovePartialQuiet();
            return end, Err(if there then AlreadyExists else Io);
          }
          Rename();
          return end, Ok(n);
        case TooLarge =>
          RemovePartialQuiet();
          return end, Err(FileTooLarge(max));
        case Broken(m) =>
          RemovePartialQuiet();
          return end, Err(Network(m));
        case DiskError =>
          RemovePartialQuiet();
          return end, Err(Io);
      }
    }

    /** Moving the partial file onto the destination replaces whatever is there. */
    method Rename()
      requires Valid() && partial.Some?
      modifies this
      ensures dest == old(partial) && partial == None && start == old(start) && cap == old(cap)
      ensures |trail| > 0 && trail[|trail| - 1] == Now() && AlwaysSmall(trail, start.partial, cap) && trail[0] == start
      ensures NeverReplaced(trail) <==> (old(dest).None? || old(dest) == old(partial))
    {
      var f := Files(partial, None);
      AlwaysSmallSnoc(trail, f, start.partial, cap);
      if dest.None? || dest == partial { NeverReplacedSnoc(trail, f); } else { ReplacedShows(trail, f); }
      dest, partial := partial, None;
      trail := trail + [Now()];
    }

    /** One turn of the loop: nothing when the attempt is to be repeated. */
    method Try(a: Answer, max: nat, mayRetry: bool) returns (result: Option<Result<nat, Error>>)
      requires Valid() && max == cap
      modifies this
      ensures start == old(start) && cap == old(cap) && trail != []
      ensures trail[0] == start && trail[|trail| - 1] == Now() && AlwaysSmall(trail, start.partial, cap)
      ensures result == if mayRetry && Transient(a.reply, max) then None
                        else Some(Verdict(a, max, Placed(old(dest), a.during).Some?))
      ensures result.None? ==> NeverReplaced(trail) && dest == Placed(old(dest), a.during)
      ensures result.Some? ==>
                Now() == Files(FinalDest(a, max, Placed(old(dest), a.during)), None)
                && (NeverReplaced(trail) <==> !Overwrites(a, max, Placed(old(dest), a.during)))
    {
      Observe(a.during);
      match a.reply {
        case NoResponse(e) =>
          if e.Network? && mayRetry { return None; }
          RemovePartialQuiet();
          return Some(Err(e));
        case Response(code, retryAfter, length, body) =>
          if code == 429 {
            RemovePartialQuiet();
            return Some(Err(Http(429, retryAfter)));
          }
          if code == 401 || code == 403 || code == 404 {
            RemovePartialQuiet();
            return Some(Err(Http(code, None)));
          }
          if IsServerError(code) {
            RemovePartialQuiet();
            return if mayRetry then None else Some(Err(Http(code, None)));
          }
          if !IsSuccess(code) {
            RemovePartialQuiet();
            return Some(Err(Http(code, None)));
          }
          if DeclaredTooLarge(length, max) {
            RemovePartialQuiet();
            return Some(Err(FileTooLarge(max)));
          }
          var end, r := Receive(a, max);
          return if end.Broken? && mayRetry then None else Some(r);
      }
    }

    /**
     * The whole call. `valid` and `hasSegments` stand for the checks on the
     * identifier, the remote name and the base address.
     */
    method DownloadFileWithRetry(
      valid: bool, hasSegments: bool, max: nat, expectedSize: Option<nat>, maxRetries: nat, net: Net)
      returns (result: Result<nat, Error>, fetches: nat)
      modifies this
      // The early refusals touch nothing, except that a taken destination clears the partial file.
      ensures !valid ==> result == Err(InvalidQuery)
      ensures valid && DeclaredTooLarge(expectedSize, max) ==> result == Err(FileTooLarge(max))
      ensures !valid || DeclaredTooLarge(expectedSize, max) ==> fetches == 0 && Now() == old(Now())
      ensures valid && !DeclaredTooLarge(expectedSize, max) && old(dest).Some? ==>
                fetches == 0 && result == Err(AlreadyExists) && Now() == Files(old(dest), None)
      ensures valid && !DeclaredTooLarge(expectedSize, max) && old(dest).None? && !hasSegments ==>
                fetches == 0 && result == Err(InvalidQuery) && Now() == old(Now())
      // Otherwise the first answer that is not transient decides.
      ensures Fetches(valid, hasSegments, max, expectedSize, old(dest)) ==>
                var k := Decider(net, max, maxRetries, 0);
                fetches == k + 1 <= maxRetries + 1 && Decided(net, k, max, result)
      ensures !Fetches(valid, hasSegments, max, expectedSize, old(dest)) ==> NeverReplaced(trail)
      ensures (forall i :: net(i).window.None?) ==> NeverReplaced(trail)
      // At every moment the partial file is an old leftover or within the cap.
      ensures trail != [] && trail[0] == old(Now()) && trail[|trail| - 1] == Now()
      ensures AlwaysSmall(trail, old(partial), max)
    {
      trail, start, cap := [Now()], Now(), max;
      if !valid { return Err(InvalidQuery), 0; }
      if DeclaredTooLarge(expectedSize, max) { return Err(FileTooLarge(max)), 0; }
      if dest.Some? {
        RemovePartialQuiet();
        return Err(AlreadyExists), 0;
      }
      if !hasSegments { return Err(InvalidQuery), 0; }
      result, fetches := Attempts(max, maxRetries, net);
    }

    /** What the deciding attempt leaves, and when a destination was replaced. */
    ghost predicate Decided(net: Net, k: nat, max: nat, result: Result<nat, Error>)
      reads this
    {
      var there := PlacedBy(net, k + 1);
      result == Verdict(net(k), max, there.Some?)
      && Now() == Files(FinalDest(net(k), max, there), None)
      && (NeverReplaced(trail) <==> !Overwrites(net(k), max, there))
    }

    method Attempts(max: nat, maxRetries: nat, net: Net) returns (result: Result<nat, Error>, fetches: nat)
      requires Valid() && max == cap && dest.None?
      modifies this
      ensures start == old(start) && cap == old(cap) && trail != []
      ensures trail[0] == start && trail[|trail| - 1] == Now() && AlwaysSmall(trail, start.partial, cap)
      ensures var k := Decider(net, max, maxRetries, 0);
              fetches == k + 1 <= maxRetries + 1 && Decided(net, k, max, result)
    {
      var attempt := 0;
      while true
        invariant attempt <= maxRetries
        invariant Decider(net, max, maxRetries, 0) == Decider(net, max, maxRetries, attempt)
        invariant Valid() && start == old(start) && cap == old(cap)
        invariant dest == PlacedBy(net, attempt)
        decreases maxRetries - attempt
      {
        var r := Try(net(attempt), max, attempt < maxRetries);
        if r.Some? { return r.value, attempt + 1; }
        attempt := attempt + 1;
      }
    }
  }
}
