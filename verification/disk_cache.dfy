/** The disk cache counters of common/disk_cache_config.go, and the check-then-act protocol by
    which threads create and close disk bodies (common/body_storage.go). Every atomic.* call is
    one step; the configured limit and threshold are fixed. */
module DiskCache {

  /** The counters as one goroutine sees them. */
  class Counters {
    var activeFiles: int
    var usage: int
    var buffers: int
    var bufferBytes: int

    constructor ()
      ensures activeFiles == usage == buffers == bufferBytes == 0
    {
      activeFiles, usage, buffers, bufferBytes := 0, 0, 0, 0;
    }

    method IncrementDiskFiles(size: nat)
      modifies this`activeFiles, this`usage
      ensures activeFiles == old(activeFiles) + 1 && usage == old(usage) + size
    {
      activeFiles := activeFiles + 1;
      usage := usage + size;
    }

    /** Both counters are clamped at zero. */
    method DecrementDiskFiles(size: nat)
      modifies this`activeFiles, this`usage
      ensures activeFiles == if old(activeFiles) < 1 then 0 else old(activeFiles) - 1
      ensures usage == if old(usage) < size then 0 else old(usage) - size
    {
      activeFiles := activeFiles - 1;
      if activeFiles < 0 {
        activeFiles := 0;
      }
      usage := usage - size;
      if usage < 0 {
        usage := 0;
      }
    }

    method IncrementMemoryBuffers(size: nat)
      modifies this`buffers, this`bufferBytes
      ensures buffers == old(buffers) + 1 && bufferBytes == old(bufferBytes) + size
    {
      buffers, bufferBytes := buffers + 1, bufferBytes + size;
    }

    method DecrementMemoryBuffers(size: nat)
      modifies this`buffers, this`bufferBytes
      ensures buffers == old(buffers) - 1 && bufferBytes == old(bufferBytes) - size
    {
      buffers, bufferBytes := buffers - 1, bufferBytes - size;
    }

    predicate Available(enabled: bool, limit: int, size: nat)
      reads this
    {
      enabled && usage + size <= limit
    }
  }

  // ----- Interleaved threads -----

  /** How long a body can be: as declared, or, when the declared length is that of its compressed
      form, only bounded by the longest body that is accepted. */
  datatype Lengths = AsDeclared | UpTo(body: nat)

  /** The limit on usage, the shortest and the longest declared length of a disk body. */
  datatype Config = Config(limit: nat, threshold: nat, most: nat, lengths: Lengths)

  /** A creating thread: idle, past the check with a declared length, or past the file counter. */
  datatype Thread = Idle | Writing(declared: nat) | FileCounted(size: nat)

  /** A stored body: open; then closing, between the two counters or at a clamp; then gone. */
  datatype Body = Open(size: nat) | ClampingFiles(size: nat) | FileReleased(size: nat) | ClampingUsage | Gone

  datatype State = State(
    files: int,
    usage: int,
    threads: seq<Thread>,
    bodies: seq<Body>,
    committed: nat,
    released: nat)

  datatype Action =
    | Check(thread: nat, declared: nat)
    | Abandon(thread: nat)
    | CountFile(thread: nat, size: nat)
    | CountUsage(thread: nat)
    | ReleaseFile(body: nat)
    | ClampFiles(body: nat)
    | ReleaseUsage(body: nat)
    | ClampUsage(body: nat)

  function Min(a: nat, b: nat): nat {
    if a <= b then a else b
  }

  /** The longest body behind a declared length; only an empty body is stored under length 0. */
  function MayWrite(c: Config, declared: nat): nat {
    if c.lengths.AsDeclared? || declared == 0 then declared else c.lengths.body
  }

  predicate Enabled(s: State, a: Action, c: Config) {
    match a
    case Check(t, declared) => t < |s.threads| && s.threads[t].Idle? && c.threshold <= declared <= c.most
    case Abandon(t) => t < |s.threads| && s.threads[t].Writing?
    case CountFile(t, size) => t < |s.threads| && s.threads[t].Writing? && size <= MayWrite(c, s.threads[t].declared)
    case CountUsage(t) => t < |s.threads| && s.threads[t].FileCounted?
    case ReleaseFile(b) => b < |s.bodies| && s.bodies[b].Open?
    case ClampFiles(b) => b < |s.bodies| && s.bodies[b].ClampingFiles?
    case ReleaseUsage(b) => b < |s.bodies| && s.bodies[b].FileReleased?
    case ClampUsage(b) => b < |s.bodies| && s.bodies[b].ClampingUsage?
  }

  function Step(s: State, a: Action, c: Config): State
    requires Enabled(s, a, c)
  {
    match a
    case Check(t, declared) =>
      if s.usage + declared <= c.limit then s.(threads := s.threads[t := Writing(declared)]) else s
    case Abandon(t) => s.(threads := s.threads[t := Idle])
    case CountFile(t, size) => s.(files := s.files + 1, threads := s.threads[t := FileCounted(size)])
    case CountUsage(t) =>
      var size := s.threads[t].size;
      s.(usage := s.usage + size, threads := s.threads[t := Idle], bodies := s.bodies + [Open(size)],
         committed := s.committed + size)
    case ReleaseFile(b) =>
      var size := s.bodies[b].size;
      s.(files := s.files - 1,
         bodies := s.bodies[b := if s.files - 1 < 0 then ClampingFiles(size) else FileReleased(size)])
    case ClampFiles(b) => s.(files := 0, bodies := s.bodies[b := FileReleased(s.bodies[b].size)])
    case ReleaseUsage(b) =>
      var size := s.bodies[b].size;
      s.(usage := s.usage - size, released := s.released + size,
         bodies := s.bodies[b := if s.usage - size < 0 then ClampingUsage else Gone])
    case ClampUsage(b) => s.(usage := 0, bodies := s.bodies[b := Gone])
  }

  function Start(n: nat): State {
    State(0, 0, seq(n, _ => Idle), [], 0, 0)
  }

  predicate IsRun(n: nat, actions: seq<Action>, c: Config)
    decreases |actions|, 0
  {
    actions == [] || (
      var front := actions[..|actions| - 1];
      IsRun(n, front, c) && Enabled(After(n, front, c), actions[|actions| - 1], c))
  }

  function After(n: nat, actions: seq<Action>, c: Config): State
    requires IsRun(n, actions, c)
    decreases |actions|, 1
  {
    if actions == [] then Start(n)
    else Step(After(n, actions[..|actions| - 1], c), actions[|actions| - 1], c)
  }

  // ----- Sums -----

  function Total<T>(xs: seq<T>, weight: T -> nat): nat {
    if xs == [] then 0 else Total(xs[..|xs| - 1], weight) + weight(xs[|xs| - 1])
  }

  lemma {:induction false} TotalUpdate<T>(xs: seq<T>, i: nat, x: T, weight: T -> nat)
    requires i < |xs|
    ensures Total(xs[i := x], weight) == Total(xs, weight) - weight(xs[i]) + weight(x)
  {
    var last := |xs| - 1;
    if i < last {
      TotalUpdate(xs[..last], i, x, weight);
      assert xs[i := x][..last] == xs[..last][i := x];
    } else {
      assert xs[i := x][..last] == xs[..last];
    }
  }

  lemma TotalAppend<T>(xs: seq<T>, x: T, weight: T -> nat)
    ensures Total(xs + [x], weight) == Total(xs, weight) + weight(x)
  {
    assert (xs + [x])[..|xs|] == xs;
  }

  lemma {:induction false} TotalAtLeast<T>(xs: seq<T>, i: nat, weight: T -> nat)
    requires i < |xs|
    ensures Total(xs, weight) >= weight(xs[i])
  {
    if i < |xs| - 1 {
      TotalAtLeast(xs[..|xs| - 1], i, weight);
    }
  }

  lemma {:induction false} TotalAtMost<T>(xs: seq<T>, weight: T -> nat, most: nat)
    requires forall i :: 0 <= i < |xs| ==> weight(xs[i]) <= most
    ensures Total(xs, weight) <= |xs| * most
  {
    if xs != [] {
      TotalAtMost(xs[..|xs| - 1], weight, most);
    }
  }

  // ----- What every run keeps -----

  /** The bytes that a thread past the check may still add to the usage. */
  function InFlight(c: Config): Thread -> nat {
    (t: Thread) =>
      match t
      case Idle => 0
      case Writing(declared) => MayWrite(c, declared)
      case FileCounted(size) => size
  }

  function ThreadFiles(t: Thread): nat {
    if t.FileCounted? then 1 else 0
  }

  function BodyFiles(b: Body): nat {
    if b.Open? then 1 else 0
  }

  function BodyBytes(b: Body): nat {
    if b.Open? || b.FileReleased? then b.size else 0
  }

  /** Some body with content can pass the check. */
  predicate Stores(c: Config) {
    0 < Min(c.most, c.limit) && c.threshold <= Min(c.most, c.limit)
  }

  /** The declared length that leads to the highest usage: the longest when bodies are as long as
      declared, the shortest when they are not. */
  function WorstDeclared(c: Config): nat {
    if c.lengths.AsDeclared? then Min(c.most, c.limit)
    else if c.threshold == 0 then 1
    else c.threshold
  }

  /** What n threads can store at most. */
  function Bound(n: nat, c: Config): int {
    if Stores(c) then c.limit - WorstDeclared(c) + n * MayWrite(c, WorstDeclared(c)) else 0
  }

  /** The counters count exactly the bodies, so no clamp is pending; and usage together with
      what threads still write stays within the bound. */
  ghost predicate Inv(s: State, n: nat, c: Config) {
    && |s.threads| == n
    && s.files == Total(s.threads, ThreadFiles) + Total(s.bodies, BodyFiles)
    && s.usage == Total(s.bodies, BodyBytes)
    && s.usage == s.committed - s.released
    && (forall b :: 0 <= b < |s.bodies| ==> !s.bodies[b].ClampingFiles? && !s.bodies[b].ClampingUsage?)
    && (forall t :: 0 <= t < n ==> InFlight(c)(s.threads[t]) <= MayWrite(c, WorstDeclared(c)))
    && s.usage + Total(s.threads, InFlight(c)) <= Bound(n, c)
  }

  /** A declared length that passes the check with these others in flight. */
  lemma CheckWithinBound(usage: nat, others: nat, declared: nat, n: nat, c: Config)
    requires n > 0 && usage + declared <= c.limit && c.threshold <= declared <= c.most
    requires others <= (n - 1) * MayWrite(c, WorstDeclared(c)) && usage + others <= Bound(n, c)
    ensures MayWrite(c, declared) <= MayWrite(c, WorstDeclared(c))
    ensures usage + others + MayWrite(c, declared) <= Bound(n, c)
  {
    var worst := MayWrite(c, WorstDeclared(c));
    assert (n - 1) * worst + worst == n * worst;
  }

  lemma CheckKeepsInv(s: State, t: nat, declared: nat, n: nat, c: Config)
    requires Inv(s, n, c) && t < n && s.threads[t].Idle? && c.threshold <= declared <= c.most
    requires s.usage + declared <= c.limit
    ensures Inv(s.(threads := s.threads[t := Writing(declared)]), n, c)
  {
    TotalUpdate(s.threads, t, Writing(declared), ThreadFiles);
    TotalUpdate(s.threads, t, Writing(declared), InFlight(c));
    OthersAtMost(s.threads, t, InFlight(c), MayWrite(c, WorstDeclared(c)));
    CheckWithinBound(s.usage, Total(s.threads, InFlight(c)), declared, n, c);
  }

  /** The threads other than one with nothing in flight have at most `most` bytes each. */
  lemma {:induction false} OthersAtMost<T>(threads: seq<T>, t: nat, weight: T -> nat, most: nat)
    requires t < |threads| && weight(threads[t]) == 0
    requires forall i :: 0 <= i < |threads| ==> weight(threads[i]) <= most
    ensures Total(threads, weight) <= (|threads| - 1) * most
  {
    var last := |threads| - 1;
    if t < last {
      OthersAtMost(threads[..last], t, weight, most);
    } else {
      TotalAtMost(threads[..last], weight, most);
    }
  }

  lemma ThreadStepKeepsInv(s: State, a: Action, n: nat, c: Config)
    requires Inv(s, n, c) && Enabled(s, a, c) && (a.Abandon? || a.CountFile? || a.CountUsage?)
    ensures Inv(Step(s, a, c), n, c)
  {
    var t := a.thread;
    var t' := Step(s, a, c).threads[t];
    TotalUpdate(s.threads, t, t', ThreadFiles);
    TotalUpdate(s.threads, t, t', InFlight(c));
    if a.CountUsage? {
      TotalAppend(s.bodies, Open(s.threads[t].size), BodyFiles);
      TotalAppend(s.bodies, Open(s.threads[t].size), BodyBytes);
    }
  }

  lemma BodyStepKeepsInv(s: State, a: Action, n: nat, c: Config)
    requires Inv(s, n, c) && Enabled(s, a, c) && (a.ReleaseFile? || a.ReleaseUsage?)
    ensures Inv(Step(s, a, c), n, c)
  {
    var b := a.body;
    var b' := Step(s, a, c).bodies[b];
    TotalUpdate(s.bodies, b, b', BodyFiles);
    TotalUpdate(s.bodies, b, b', BodyBytes);
    TotalAtLeast(s.bodies, b, BodyFiles);
    TotalAtLeast(s.bodies, b, BodyBytes);
  }

  lemma {:induction false} StartTotals(threads: seq<Thread>, c: Config)
    requires forall i :: 0 <= i < |threads| ==> threads[i].Idle?
    ensures Total(threads, ThreadFiles) == 0 && Total(threads, InFlight(c)) == 0
  {
    if threads != [] {
      StartTotals(threads[..|threads| - 1], c);
    }
  }

  /** The bound in terms of the configuration. */
  lemma BoundMeans(n: nat, c: Config)
    requires n > 0
    ensures Bound(n, c) >= 0
    ensures Stores(c) && c.lengths.AsDeclared? ==> Bound(n, c) == c.limit + (n - 1) * Min(c.most, c.limit)
    ensures Stores(c) && c.lengths.UpTo? ==>
              Bound(n, c) == c.limit - (if c.threshold == 0 then 1 else c.threshold) + n * c.lengths.body
  {
    var worst := MayWrite(c, WorstDeclared(c));
    assert n * worst == (n - 1) * worst + worst && (n - 1) * worst >= 0;
  }

  /** Under every interleaving of n threads: the usage counter is what was committed less what was
      released, the clamp to zero never fires, and usage with the bytes in flight never exceeds
      the bound. */
  lemma {:induction false} EveryRunKeepsInv(n: nat, actions: seq<Action>, c: Config)
    requires n > 0 && IsRun(n, actions, c)
    ensures Inv(After(n, actions, c), n, c)
  {
    if actions == [] {
      StartTotals(Start(n).threads, c);
      BoundMeans(n, c);
    } else {
      var front, a := actions[..|actions| - 1], actions[|actions| - 1];
      EveryRunKeepsInv(n, front, c);
      var s := After(n, front, c);
      match a {
        case Check(t, declared) =>
          if s.usage + declared <= c.limit {
            CheckKeepsInv(s, t, declared, n, c);
          }
        case Abandon(_) => ThreadStepKeepsInv(s, a, n, c);
        case CountFile(_, _) => ThreadStepKeepsInv(s, a, n, c);
        case CountUsage(_) => ThreadStepKeepsInv(s, a, n, c);
        case ReleaseFile(_) => BodyStepKeepsInv(s, a, n, c);
        case ReleaseUsage(_) => BodyStepKeepsInv(s, a, n, c);
        case ClampFiles(b) => assert false;
        case ClampUsage(b) => assert false;
      }
    }
  }

  /** The bound as a caller reads it. With bodies as long as declared: the limit for one thread,
      and a body that passes the check more for every other thread. With bodies longer than
      declared: what the shortest declared length leaves of the limit, and one longest body per
      thread. When no declared length is both large enough for the disk and small enough for the
      limit, nothing. */
  lemma UsageBound(n: nat, actions: seq<Action>, c: Config)
    requires n > 0 && IsRun(n, actions, c)
    ensures var s := After(n, actions, c);
            && 0 <= s.usage == s.committed - s.released
            && s.usage <= s.usage + Total(s.threads, InFlight(c)) <=
               if !Stores(c) then 0
               else if c.lengths.AsDeclared? then c.limit + (n - 1) * Min(c.most, c.limit)
               else c.limit - (if c.threshold == 0 then 1 else c.threshold) + n * c.lengths.body
  {
    EveryRunKeepsInv(n, actions, c);
    BoundMeans(n, c);
  }

  // ----- The bound is attained -----

  lemma RunNext(n: nat, actions: seq<Action>, a: Action, c: Config)
    requires IsRun(n, actions, c) && Enabled(After(n, actions, c), a, c)
    ensures IsRun(n, actions + [a], c)
    ensures After(n, actions + [a], c) == Step(After(n, actions, c), a, c)
  {
    var all := actions + [a];
    assert all[..|all| - 1] == actions;
  }

  /** The threads from `from` up to `to` are past the check, the others idle. */
  predicate Between(s: State, n: nat, from: nat, to: nat, declared: nat, usage: nat) {
    && s.usage == usage && |s.threads| == n
    && forall t :: 0 <= t < n ==> s.threads[t] == if from <= t < to then Writing(declared) else Idle
  }

  /** Thread t checks; the next one can follow. */
  lemma Checks(n: nat, actions: seq<Action>, t: nat, declared: nat, usage: nat, c: Config)
    requires t < n && IsRun(n, actions, c) && Between(After(n, actions, c), n, 0, t, declared, usage)
    requires c.threshold <= declared <= c.most && usage + declared <= c.limit
    ensures var all := actions + [Check(t, declared)];
            IsRun(n, all, c) && Between(After(n, all, c), n, 0, t + 1, declared, usage)
  {
    RunNext(n, actions, Check(t, declared), c);
  }

  /** The first thread past the check stores its body. */
  lemma Commits(n: nat, actions: seq<Action>, t: nat, to: nat, size: nat, declared: nat, usage: nat, c: Config)
    requires t < to <= n && IsRun(n, actions, c) && Between(After(n, actions, c), n, t, to, declared, usage)
    requires size <= MayWrite(c, declared)
    ensures var all := actions + [CountFile(t, size)] + [CountUsage(t)];
            IsRun(n, all, c) && Between(After(n, all, c), n, t + 1, to, declared, usage + size)
  {
    RunNext(n, actions, CountFile(t, size), c);
    RunNext(n, actions + [CountFile(t, size)], CountUsage(t), c);
  }

  /** One thread alone stores bodies until exactly `target` bytes are in use. */
  lemma {:induction false} Filled(n: nat, target: nat, declared: nat, c: Config) returns (actions: seq<Action>)
    requires n > 0 && c.threshold <= declared <= c.most && target + declared <= c.limit && 0 < MayWrite(c, declared)
    ensures IsRun(n, actions, c) && Between(After(n, actions, c), n, 0, 0, declared, target)
    decreases target
  {
    actions := [];
    if target > 0 {
      var size := Min(MayWrite(c, declared), target);
      actions := Filled(n, target - size, declared, c);
      Checks(n, actions, 0, declared, target - size, c);
      actions := actions + [Check(0, declared)];
      Commits(n, actions, 0, 1, size, declared, target - size, c);
      actions := actions + [CountFile(0, size)] + [CountUsage(0)];
    }
  }

  /** k threads pass the check before any of them stores its body. */
  lemma {:induction false} AllCheck(n: nat, before: seq<Action>, k: nat, declared: nat, usage: nat, c: Config)
      returns (actions: seq<Action>)
    requires k <= n && IsRun(n, before, c) && Between(After(n, before, c), n, 0, 0, declared, usage)
    requires c.threshold <= declared <= c.most && usage + declared <= c.limit
    ensures IsRun(n, actions, c) && Between(After(n, actions, c), n, 0, k, declared, usage)
    decreases k
  {
    actions := before;
    if k > 0 {
      actions := AllCheck(n, before, k - 1, declared, usage, c);
      Checks(n, actions, k - 1, declared, usage, c);
      actions := actions + [Check(k - 1, declared)];
    }
  }

  function StoredBy(k: nat, size: nat): nat {
    if k == 0 then 0 else StoredBy(k - 1, size) + size
  }

  lemma {:induction false} StoredByAll(k: nat, size: nat)
    ensures StoredBy(k, size) == k * size
  {
    if k > 0 {
      StoredByAll(k - 1, size);
      assert (k - 1) * size + size == k * size;
    }
  }

  /** Then k of them store bodies of the same size. */
  lemma {:induction false} AllCommit(n: nat, before: seq<Action>, k: nat, size: nat, declared: nat, usage: nat, c: Config)
      returns (actions: seq<Action>)
    requires k <= n && IsRun(n, before, c) && Between(After(n, before, c), n, 0, n, declared, usage)
    requires size <= MayWrite(c, declared)
    ensures IsRun(n, actions, c) && Between(After(n, actions, c), n, k, n, declared, usage + StoredBy(k, size))
    decreases k
  {
    actions := before;
    if k > 0 {
      actions := AllCommit(n, before, k - 1, size, declared, usage, c);
      Commits(n, actions, k - 1, n, size, declared, usage + StoredBy(k - 1, size), c);
      actions := actions + [CountFile(k - 1, size)] + [CountUsage(k - 1)];
    }
  }

  /** Checking and counting in separate steps lets n bodies through at once: for every limit,
      threshold, largest declared length and longest body the bound is reached by what is really
      stored, by filling the disk and letting all threads check before any stores its body. */
  lemma BoundIsAttained(n: nat, c: Config)
    requires n > 0 && (c.lengths.UpTo? ==> c.lengths.body > 0)
    ensures exists actions :: IsRun(n, actions, c) && After(n, actions, c).usage == Bound(n, c)
  {
    var actions := [];
    if Stores(c) {
      var declared := WorstDeclared(c);
      var size := MayWrite(c, declared);
      actions := Filled(n, c.limit - declared, declared, c);
      actions := AllCheck(n, actions, n, declared, c.limit - declared, c);
      actions := AllCommit(n, actions, n, size, declared, c.limit - declared, c);
      StoredByAll(n, size);
    }
    assert IsRun(n, actions, c) && After(n, actions, c).usage == Bound(n, c);
  }
}
