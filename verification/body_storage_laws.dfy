/** Memory and disk bodies behave as one reader, and partial reads lose nothing. */
module BodyStorageLaws {
  import opened Wrappers
  import opened BodyStorage

  datatype Op = ReadOp(n: nat) | SeekOp(offset: int, whence: Whence) | BytesOp | CloseOp

  /** One call on a storage: its reply and the storage after it. */
  function Perform(kind: Kind, v: View, op: Op): (Reply, View) {
    match op
    case ReadOp(n) => ReadOf(kind, v, n)
    case SeekOp(offset, whence) => SeekOf(v, offset, whence)
    case BytesOp => (if v.closed then IsClosed else Data(v.data), v)
    case CloseOp => (Done, v.(closed := true))
  }

  function Replies(kind: Kind, v: View, ops: seq<Op>): seq<Reply>
    decreases |ops|
  {
    if ops == [] then []
    else
      var (reply, v') := Perform(kind, v, ops[0]);
      [reply] + Replies(kind, v', ops[1..])
  }

  /** Some read with an empty buffer happens at or past the end of an open storage. */
  predicate ReadsNothingAtEnd(v: View, ops: seq<Op>)
    decreases |ops|
  {
    ops != [] && (
      || (ops[0] == ReadOp(0) && !v.closed && v.pos >= |v.data|)
      || ReadsNothingAtEnd(Perform(OnDisk, v, ops[0]).1, ops[1..]))
  }

  /** A client that makes any calls cannot tell memory from disk, exactly unless it reads into an
      empty buffer at the end: bytes.Reader then reports the end and a file does not. */
  lemma {:induction false} KindsAgree(v: View, ops: seq<Op>)
    ensures Replies(InMemory, v, ops) == Replies(OnDisk, v, ops) <==> !ReadsNothingAtEnd(v, ops)
    decreases |ops|
  {
    if ops != [] {
      var (m, vm) := Perform(InMemory, v, ops[0]);
      var (d, vd) := Perform(OnDisk, v, ops[0]);
      assert vm == vd;
      assert m == d <==> !(ops[0] == ReadOp(0) && !v.closed && v.pos >= |v.data|);
      KindsAgree(vd, ops[1..]);
      SameReplies(m, d, Replies(InMemory, vm, ops[1..]), Replies(OnDisk, vd, ops[1..]));
    }
  }

  lemma SameReplies(m: Reply, d: Reply, ms: seq<Reply>, ds: seq<Reply>)
    ensures [m] + ms == [d] + ds <==> m == d && ms == ds
  {
    assert ([m] + ms)[1..] == ms && ([d] + ds)[1..] == ds;
    assert ([m] + ms)[0] == m && ([d] + ds)[0] == d;
  }

  /** The bytes that reads of the given sizes return, put together. */
  function Collected(kind: Kind, v: View, sizes: seq<nat>): seq<byte>
    decreases |sizes|
  {
    if sizes == [] then []
    else
      var (reply, v') := ReadOf(kind, v, sizes[0]);
      (if reply.Data? then reply.bytes else []) + Collected(kind, v', sizes[1..])
  }

  function SumOf(sizes: seq<nat>): nat {
    if sizes == [] then 0 else sizes[0] + SumOf(sizes[1..])
  }

  function UpTo(pos: nat, length: nat): nat {
    if pos <= length then pos else length
  }

  /** Partial reads of any sizes return the body piece by piece: nothing is lost, repeated or
      reordered, and once the sizes cover it, all of it was returned. */
  lemma {:induction false} PartialReadsCollect(kind: Kind, v: View, sizes: seq<nat>)
    requires !v.closed && v.pos <= |v.data|
    ensures Collected(kind, v, sizes) == v.data[v.pos..UpTo(v.pos + SumOf(sizes), |v.data|)]
    decreases |sizes|
  {
    if sizes != [] {
      var next := UpTo(v.pos + sizes[0], |v.data|);
      OneRead(kind, v, sizes);
      PartialReadsCollect(kind, View(v.data, next, false), sizes[1..]);
      SlicesJoin(v.data, v.pos, next, UpTo(v.pos + SumOf(sizes), |v.data|));
    }
  }

  lemma OneRead(kind: Kind, v: View, sizes: seq<nat>)
    requires !v.closed && v.pos <= |v.data| && sizes != []
    ensures var next := UpTo(v.pos + sizes[0], |v.data|);
            && Collected(kind, v, sizes) == v.data[v.pos..next] + Collected(kind, View(v.data, next, false), sizes[1..])
            && UpTo(v.pos + SumOf(sizes), |v.data|) == UpTo(next + SumOf(sizes[1..]), |v.data|)
  {
  }

  lemma SlicesJoin<T>(s: seq<T>, a: nat, b: nat, c: nat)
    requires a <= b <= c <= |s|
    ensures s[a..b] + s[b..c] == s[a..c]
  {
  }

  /** From the start, reads that cover the body return the body. */
  lemma WholeBodyCollected(kind: Kind, data: seq<byte>, sizes: seq<nat>)
    requires SumOf(sizes) >= |data|
    ensures Collected(kind, View(data, 0, false), sizes) == data
  {
    PartialReadsCollect(kind, View(data, 0, false), sizes);
  }

  lemma RestCollected(kind: Kind, data: seq<byte>, k: nat)
    requires k <= |data|
    ensures Collected(kind, View(data, k, false), [|data|]) == data[k..]
  {
    assert [|data|][1..] == [];
    PartialReadsCollect(kind, View(data, k, false), [|data|]);
  }

  /** Seeking to a position and reading on gives the rest of the body from there; seeking back from
      the end gives its last bytes. */
  lemma SeekAndRead(kind: Kind, v: View, k: int)
    requires !v.closed && 0 <= k <= |v.data|
    ensures SeekOf(v, k, FromStart).0 == At(k) && Collected(kind, SeekOf(v, k, FromStart).1, [|v.data|]) == v.data[k..]
    ensures Collected(kind, SeekOf(v, -k, FromEnd).1, [|v.data|]) == v.data[|v.data| - k..]
  {
    RestCollected(kind, v.data, k);
    RestCollected(kind, v.data, |v.data| - k);
  }

  /** Seeking back by what a read returned undoes the read. */
  lemma ReadIsUndone(kind: Kind, v: View, n: nat)
    requires !v.closed && v.pos <= |v.data|
    ensures var (reply, v') := ReadOf(kind, v, n);
            reply.Data? ==> SeekOf(v', -|reply.bytes|, FromCurrent) == (At(v.pos), v)
  {
  }

  /** A seek before the start is refused and moves nothing. */
  lemma SeekBeforeStart(v: View, k: int)
    requires !v.closed && k > 0
    ensures SeekOf(v, -k, FromStart) == (Invalid, v)
    ensures SeekOf(v, -k - v.pos, FromCurrent) == (Invalid, v)
    ensures SeekOf(v, -k - |v.data|, FromEnd) == (Invalid, v)
  {
  }

  /** After a close every further read, seek and request for the bytes is refused. */
  lemma {:induction false} ClosedForGood(kind: Kind, v: View, ops: seq<Op>)
    requires v.closed
    ensures |Replies(kind, v, ops)| == |ops|
    ensures forall i :: 0 <= i < |ops| ==> Replies(kind, v, ops)[i] == if ops[i].CloseOp? then Done else IsClosed
    decreases |ops|
  {
    if ops != [] {
      ClosedForGood(kind, v, ops[1..]);
      assert Perform(kind, v, ops[0]).1 == v;
    }
  }

  // ----- Rewritten bodies -----

  /** Once a body is stored, no further call changes what is served. */
  lemma {:induction false} StoredStays(content: seq<byte>, calls: seq<Call>)
    ensures AfterCalls(Stored(content), calls) == Stored(content)
  {
    if calls != [] {
      StoredStays(content, calls[..|calls| - 1]);
    }
  }

  lemma {:induction false} CallsAppend(s: Serving, calls: seq<Call>, more: seq<Call>)
    ensures AfterCalls(s, calls + more) == AfterCalls(AfterCalls(s, calls), more)
  {
    if more == [] {
      assert calls + more == calls;
    } else {
      CallsAppend(s, calls, more[..|more| - 1]);
      assert (calls + more)[..|calls + more| - 1] == calls + more[..|more| - 1];
    }
  }

  /** Without a further rewrite a rewritten body is what the next storage holds. */
  lemma {:induction false} RewriteStays(replacement: seq<byte>, incoming: Option<seq<byte>>, calls: seq<Call>)
    requires forall k :: 0 <= k < |calls| ==> !calls[k].Rewrite?
    ensures AfterCalls(Unread(Some(replacement), incoming), calls) in {Unread(Some(replacement), incoming), Stored(replacement)}
  {
    if calls != [] {
      RewriteStays(replacement, incoming, calls[..|calls| - 1]);
    }
  }

  /** A rewritten body is served until the next rewrite if and only if nothing is stored at the
      moment of the rewrite, or the stored body is the same. */
  lemma RewriteIsServed(s: Serving, before: seq<Call>, replacement: seq<byte>, calls: seq<Call>)
    requires forall k :: 0 <= k < |calls| ==> !calls[k].Rewrite?
    ensures var at, end := AfterCalls(s, before), Obtain(AfterCalls(s, before + [Rewrite(replacement)] + calls));
            && end.Stored?
            && (end.content == replacement <==> !at.Stored? || at.content == replacement)
  {
    var at := AfterCalls(s, before);
    CallsAppend(s, before + [Rewrite(replacement)], calls);
    CallsAppend(s, before, [Rewrite(replacement)]);
    assert AfterCalls(at, [Rewrite(replacement)]) == AfterCall(at, Rewrite(replacement)) by {
      assert [Rewrite(replacement)][..0] == [];
    }
    if at.Stored? {
      StoredStays(at.content, calls);
    } else {
      RewriteStays(replacement, at.incoming, calls);
    }
  }

  /** The adapters decode the body before they rewrite it, and go on only if that succeeded: then
      a body is stored, and the request serves that one for good, not the converted one. */
  lemma ConvertedBodyIsIgnored(s: Serving, json: bool, decoding: Decoding, replacement: seq<byte>, calls: seq<Call>)
    requires Obtain(s).Stored?
    ensures AfterCalls(s, [Unmarshal(json, decoding), Rewrite(replacement)] + calls) == Obtain(s)
  {
    var first, second := [Unmarshal(json, decoding)], [Rewrite(replacement)];
    CallsAppend(s, first, second + calls);
    assert first[..0] == [];
    assert AfterCalls(s, first) == Obtain(s);
    assert [Unmarshal(json, decoding), Rewrite(replacement)] + calls == first + (second + calls);
    StoredStays(Obtain(s).content, second + calls);
  }
}
