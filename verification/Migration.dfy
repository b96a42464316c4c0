/** The store's resumable shape ladder: one migration per transaction, its stamp
    riding with it, a backup before anything moves
    (internal/confdb/migrate.go). */
module Migration {
  import opened Common

  /** One lift: the shape it produces, and what it does to the content. */
  datatype Migration<!T> = Migration(to: int, run: T -> T)

  /** A store's content with its shape row; no row reads as shape 1. */
  datatype Image<T> = Image(content: T, stamp: Option<int>)
  {
    function Shape(): int {
      if stamp.None? then 1 else stamp.value
    }
  }

  /** The store file with the backups beside it, by the shape they precede. A
      store in memory has no files. */
  datatype Disk<T> = Disk(image: Image<T>, backups: map<int, Image<T>>, inMemory: bool)

  datatype Outcome =
    | Done
    | BrokenList
    | Unreadable
    | FutureShape
    | BackupExposed   // an old backup could not be tightened
    | BackupFailed
    | LiftFailed(to: int)
    | Crashed         // the process died; nothing after this point ran

  /** What can go wrong under an attempt: a read, a permission change, a copy or
      a transaction that fails, or the process's own death. */
  datatype Fault = ReadFault | PermissionFault | CopyFault | TransactionFault | Death

  /** The fault an outcome answers for, if it answers for one. */
  ghost function FaultOf(outcome: Outcome): Option<Fault> {
    match outcome
    case Done => None
    case BrokenList => None
    case FutureShape => None
    case Unreadable => Some(ReadFault)
    case BackupExposed => Some(PermissionFault)
    case BackupFailed => Some(CopyFault)
    case LiftFailed(_) => Some(TransactionFault)
    case Crashed => Some(Death)
  }

  /** Ordered, no gaps, no doubles: the i-th migration produces shape i + 2. */
  ghost predicate WellOrdered<T>(ms: seq<Migration<T>>) {
    forall i :: 0 <= i < |ms| ==> ms[i].to == i + 2
  }

  /** The newest shape a binary with these migrations speaks. */
  function Supported<T>(ms: seq<Migration<T>>): int {
    |ms| + 1
  }

  /** The image after exactly the migrations from its own shape up to `shape`,
      each once, in order. */
  function LiftTo<T>(img: Image<T>, ms: seq<Migration<T>>, shape: int): Image<T>
    requires shape <= Supported(ms)
    decreases shape
  {
    if shape <= img.Shape() || shape < 2 then img
    else Image(ms[shape - 2].run(LiftTo(img, ms, shape - 1).content), Some(shape))
  }

  /** Everything one attempt may do. */
  ghost predicate Attempt<T(!new)>(ms: seq<Migration<T>>, before: Disk<T>, after: Disk<T>, outcome: Outcome) {
    && after.inMemory == before.inMemory
    && (outcome.BrokenList? <==> !WellOrdered(ms))
    && (outcome.FutureShape? ==> before.image.Shape() > Supported(ms))
    // Finished is at the top of the ladder; only a ladder without a rung can
    // leave a store stamped below shape 1 where it was.
    && (outcome.Done? ==> after.image.Shape() == Supported(ms) || (ms == [] && after.image == before.image))
    // A list that is broken or a store from the future is not touched.
    && (!WellOrdered(ms) || before.image.Shape() > Supported(ms) ==> after == before && !outcome.Done?)
    // What it did is a prefix of the ladder, and the stamp says which.
    && before.image.Shape() <= after.image.Shape()
    && (after.image == before.image ||
        (after.image.Shape() <= Supported(ms) && after.image == LiftTo(before.image, ms, after.image.Shape())))
    && (outcome.LiftFailed? ==> outcome.to == Max(after.image.Shape(), 1) + 1)
    // The only backup it writes is its own, once, of the store as it found it,
    // and before it lifts anything.
    && (after.backups == before.backups ||
        (Supported(ms) !in before.backups && after.backups == before.backups[Supported(ms) := before.image]))
    && (after.image != before.image && !before.inMemory ==> Supported(ms) in after.backups)
  }

  lemma LiftNothing<T>(img: Image<T>, ms: seq<Migration<T>>)
    ensures forall shape :: shape <= Supported(ms) && (shape <= img.Shape() || shape < 2) ==>
              LiftTo(img, ms, shape) == img
  {
  }

  lemma LiftNext<T>(img: Image<T>, ms: seq<Migration<T>>, i: nat)
    requires i < |ms| && img.Shape() < i + 2
    ensures LiftTo(img, ms, i + 2) == Image(ms[i].run(LiftTo(img, ms, i + 1).content), Some(i + 2))
  {
  }

  class Store<T(!new)> {
    var image: Image<T>
    var backups: map<int, Image<T>>
    const inMemory: bool
    ghost var fault: Option<Fault>  // what went wrong under the last attempt

    ghost function OnDisk(): Disk<T>
      reads this
    {
      Disk(image, backups, inMemory)
    }

    constructor (image: Image<T>, inMemory: bool)
      ensures OnDisk() == Disk(image, map[], inMemory)
    {
      this.image, backups, this.inMemory := image, map[], inMemory;
    }

    /** One thing that may go wrong, on record when it does. */
    method Attempted(f: Fault) returns (ok: bool)
      modifies this`fault
      ensures fault == if ok then old(fault) else Some(f)
    {
      ok := *;
      if !ok {
        fault := Some(f);
      }
    }

    /** Every read, copy, permission change and transaction may fail, and the
        process may die between any two of them; an attempt ends short only when
        one did, and says which. */
    method Migrate(ms: seq<Migration<T>>) returns (outcome: Outcome)
      modifies this
      ensures Attempt(ms, old(OnDisk()), OnDisk(), outcome)
      ensures fault == FaultOf(outcome)
      ensures fault == None && WellOrdered(ms) ==>
                outcome == if old(image).Shape() > |ms| + 1 then FutureShape else Done
    {
      hide LiftTo;
      fault := None;
      var supported := 1;
      for i := 0 to |ms|
        invariant supported == i + 1
        invariant forall j :: 0 <= j < i ==> ms[j].to == j + 2
      {
        if ms[i].to != supported + 1 {
          return BrokenList;
        }
        supported := ms[i].to;
      }
      var readable := this.Attempted(ReadFault);
      if !readable {
        return Unreadable;
      }
      var shape := image.Shape();
      if shape > supported {
        return FutureShape;
      }
      if !inMemory {
        var tightened := this.Attempted(PermissionFault);
        if !tightened {
          return BackupExposed;
        }
      }
      if shape == supported {
        return Done;
      }
      var alive := this.Attempted(Death);
      if !alive {
        return Crashed;
      }
      if !inMemory {
        if supported !in backups {
          var copied := this.Attempted(CopyFault);
          if !copied {
            return BackupFailed;
          }
          backups := backups[supported := image];
        }
      }
      outcome := this.Climb(ms, shape);
    }

    /** The rungs above the store's shape, one transaction each. */
    method Climb(ms: seq<Migration<T>>, from: int) returns (outcome: Outcome)
      requires WellOrdered(ms) && from == image.Shape() <= Supported(ms) && fault == None
      modifies this`image, this`fault
      ensures fault == FaultOf(outcome) && (outcome.Done? || outcome.LiftFailed? || outcome.Crashed?)
      ensures old(image).Shape() <= image.Shape() <= Supported(ms)
      ensures image == old(image) || image == LiftTo(old(image), ms, image.Shape())
      ensures outcome.Done? ==> image.Shape() == Supported(ms) || (ms == [] && image == old(image))
      ensures outcome.LiftFailed? ==> outcome.to == Max(image.Shape(), 1) + 1
    {
      hide LiftTo;
      var shape := from;
      ghost var start := image;
      LiftNothing(start, ms);
      for i := 0 to |ms|
        invariant shape == image.Shape() && start.Shape() <= shape <= Supported(ms)
        invariant i > 0 ==> shape == Max(start.Shape(), i + 1)
        invariant i == 0 ==> image == start
        invariant image == LiftTo(start, ms, Max(shape, i + 1))
        invariant image == start || (shape >= 2 && image == LiftTo(start, ms, shape))
        invariant fault == None
      {
        var alive := this.Attempted(Death);
        if !alive {
          return Crashed;
        }
        if ms[i].to <= shape {
          continue;
        }
        LiftNext(start, ms, i);
        var lifted := this.RunMigration(ms[i]);
        if !lifted {
          return LiftFailed(ms[i].to);
        }
        shape := ms[i].to;
      }
      return Done;
    }

    /** One transaction: the change and its stamp, or neither. */
    method RunMigration(m: Migration<T>) returns (ok: bool)
      modifies this`image, this`fault
      ensures image == if ok then Image(m.run(old(image).content), Some(m.to)) else old(image)
      ensures fault == if ok then old(fault) else Some(TransactionFault)
    {
      var committed := this.Attempted(TransactionFault);
      if !committed {
        return false;
      }
      image := Image(m.run(image.content), Some(m.to));
      return true;
    }
  }

  // ----- climbing in several goes -----

  lemma LiftShape<T>(img: Image<T>, ms: seq<Migration<T>>, shape: int)
    requires shape <= Supported(ms)
    ensures LiftTo(img, ms, shape).Shape() == if shape < 2 then img.Shape() else Max(img.Shape(), shape)
  {
  }

  /** Some migrations, one after another. */
  ghost function RunAll<T>(content: T, ms: seq<Migration<T>>): T {
    if ms == [] then content else ms[|ms| - 1].run(RunAll(content, ms[..|ms| - 1]))
  }

  /** A climb runs exactly the migrations between the two shapes, a store without
      a stamp being of shape 1, and stamps the one it reached. */
  lemma {:induction false} LiftExactly<T>(img: Image<T>, ms: seq<Migration<T>>, shape: int)
    requires WellOrdered(ms) && shape <= |ms| + 1
    ensures var from := if img.stamp == None then 1 else Max(img.stamp.value, 1);
            LiftTo(img, ms, shape) == if shape <= from then img
                                      else Image(RunAll(img.content, ms[from - 1..shape - 1]), Some(shape))
    decreases shape
  {
    var from := if img.stamp == None then 1 else Max(img.stamp.value, 1);
    if shape > from {
      LiftExactly(img, ms, shape - 1);
      assert ms[from - 1..shape - 1][..shape - 1 - from] == ms[from - 1..shape - 2];
      if shape - 1 == from {
        assert ms[from - 1..shape - 2] == [];
      }
    }
  }

  /** Stopping at one shape and going on later is the same climb. */
  lemma {:induction false} LiftResumes<T>(img: Image<T>, ms: seq<Migration<T>>, a: int, b: int)
    requires a <= b <= Supported(ms)
    ensures LiftTo(LiftTo(img, ms, a), ms, b) == LiftTo(img, ms, b)
    decreases b
  {
    LiftShape(img, ms, a);
    if b > a && b >= 2 {
      LiftResumes(img, ms, a, b - 1);
    }
  }

  /** A newer binary's list only adds to an older one's. */
  lemma {:induction false} LiftPrefix<T>(img: Image<T>, ms: seq<Migration<T>>, k: nat, shape: int)
    requires k <= |ms| && shape <= k + 1
    ensures LiftTo(img, ms[..k], shape) == LiftTo(img, ms, shape)
    decreases shape
  {
    if shape > img.Shape() && shape >= 2 {
      LiftPrefix(img, ms, k, shape - 1);
    }
  }

  /** An attempt by the binary that carries the first `k` migrations. */
  datatype Try = Try(k: nat, outcome: Outcome)

  /** Attempts by any binaries of one line of releases, older and newer, in any
      order, each cut short anywhere. */
  ghost predicate IsHistory<T(!new)>(ms: seq<Migration<T>>, disks: seq<Disk<T>>, tries: seq<Try>) {
    && |disks| == |tries| + 1
    && forall i :: 0 <= i < |tries| ==>
         && tries[i].k <= |ms|
         && Attempt(ms[..tries[i].k], disks[i], disks[i + 1], tries[i].outcome)
  }

  /** After any history the store is the original with exactly the migrations up
      to its stamp applied, once each, in order. */
  lemma {:induction false} HistoryIsPrefix<T(!new)>(ms: seq<Migration<T>>, disks: seq<Disk<T>>, tries: seq<Try>)
    requires WellOrdered(ms) && IsHistory(ms, disks, tries)
    ensures var first, last := disks[0].image, disks[|tries|].image;
            && first.Shape() <= last.Shape()
            && (last == first || (last.Shape() <= Supported(ms) && last == LiftTo(first, ms, last.Shape())))
    decreases |tries|
  {
    if tries != [] {
      var n := |tries| - 1;
      assert IsHistory(ms, disks[..n + 1], tries[..n]);
      HistoryIsPrefix(ms, disks[..n + 1], tries[..n]);
      StepIsPrefix(ms, disks[0].image, disks[n], disks[n + 1], tries[n]);
    }
  }

  lemma StepIsPrefix<T(!new)>(ms: seq<Migration<T>>, first: Image<T>, before: Disk<T>, after: Disk<T>, t: Try)
    requires WellOrdered(ms) && t.k <= |ms| && Attempt(ms[..t.k], before, after, t.outcome)
    requires first.Shape() <= before.image.Shape()
    requires before.image == first ||
             (before.image.Shape() <= Supported(ms) && before.image == LiftTo(first, ms, before.image.Shape()))
    ensures first.Shape() <= after.image.Shape()
    ensures after.image == first ||
            (after.image.Shape() <= Supported(ms) && after.image == LiftTo(first, ms, after.image.Shape()))
  {
    if after.image != before.image {
      var shape := after.image.Shape();
      LiftPrefix(before.image, ms, t.k, shape);
      if before.image != first {
        LiftResumes(first, ms, before.image.Shape(), shape);
      }
    }
  }

  /** A backup, once written, is never rewritten or lost, whatever runs after. */
  lemma {:induction false} BackupsStay<T(!new)>(ms: seq<Migration<T>>, disks: seq<Disk<T>>, tries: seq<Try>,
                                                i: nat, j: nat, shape: int)
    requires IsHistory(ms, disks, tries) && i <= j <= |tries| && shape in disks[i].backups
    ensures shape in disks[j].backups && disks[j].backups[shape] == disks[i].backups[shape]
    decreases j
  {
    if i < j {
      BackupsStay(ms, disks, tries, i, j - 1, shape);
    }
  }

  /** Whenever an attempt lifts the store, this binary's backup exists, and it is
      the store as it was before the first attempt of this binary that got as
      far as writing one. */
  lemma BackupPrecedesLift<T(!new)>(ms: seq<Migration<T>>, disks: seq<Disk<T>>, tries: seq<Try>, j: nat)
      returns (i: nat)
    requires IsHistory(ms, disks, tries) && j < |tries| && !disks[j].inMemory
    requires disks[0].backups == map[]
    requires disks[j + 1].image != disks[j].image
    ensures i <= j && tries[i].k == tries[j].k
    ensures var shape := tries[j].k + 1;
            && shape in disks[j + 1].backups && disks[j + 1].backups[shape] == disks[i].image
            && (forall n :: 0 <= n <= i ==> shape !in disks[n].backups)
  {
    var shape := tries[j].k + 1;
    i := FirstBackup(ms, disks, tries, j, shape);
    BackupsStay(ms, disks, tries, i + 1, j + 1, shape);
  }

  lemma {:induction false} FirstBackup<T(!new)>(ms: seq<Migration<T>>, disks: seq<Disk<T>>, tries: seq<Try>, j: nat,
                                                shape: int)
      returns (i: nat)
    requires IsHistory(ms, disks, tries) && j < |tries| && shape in disks[j + 1].backups
    requires disks[0].backups == map[]
    ensures i <= j && tries[i].k + 1 == shape
    ensures shape in disks[i + 1].backups && disks[i + 1].backups[shape] == disks[i].image
    ensures forall n :: 0 <= n <= i ==> shape !in disks[n].backups
    decreases j
  {
    if shape in disks[j].backups {
      i := FirstBackup(ms, disks, tries, j - 1, shape);
    } else {
      i := j;
      forall n | 0 <= n <= i ensures shape !in disks[n].backups {
        if shape in disks[n].backups {
          BackupsStay(ms, disks, tries, n, i, shape);
        }
      }
    }
  }

  /** One binary, retried until it is done: the backup is the store before its
      first attempt, whatever failed or died in between, and a finished climb is
      the whole ladder. */
  lemma {:induction false} RetriesResume<T(!new)>(ms: seq<Migration<T>>, disks: seq<Disk<T>>, tries: seq<Try>)
    requires WellOrdered(ms) && IsHistory(ms, disks, tries)
    requires forall i :: 0 <= i < |tries| ==> tries[i].k == |ms|
    requires disks[0].backups == map[] && !disks[0].inMemory
    ensures var first, last := disks[0].image, disks[|tries|];
            && (last.image != first ==> Supported(ms) in last.backups)
            && (last.backups == map[] || last.backups == map[Supported(ms) := first])
            && (last.image == first ||
                (last.image.Shape() <= Supported(ms) && last.image == LiftTo(first, ms, last.image.Shape())))
    ensures |tries| > 0 && tries[|tries| - 1].outcome.Done? && ms != [] ==>
              disks[|tries|].image == LiftTo(disks[0].image, ms, Supported(ms))
    decreases |tries|
  {
    HistoryIsPrefix(ms, disks, tries);
    if tries != [] {
      var n := |tries| - 1;
      assert IsHistory(ms, disks[..n + 1], tries[..n]);
      RetriesResume(ms, disks[..n + 1], tries[..n]);
      SameMode(ms, disks, tries, n);
      assert ms[..|ms|] == ms;
      assert Attempt(ms, disks[n], disks[n + 1], tries[n].outcome);
      NoBackupNoLift(disks[0].image, disks[n]);
    }
  }

  lemma NoBackupNoLift<T>(first: Image<T>, d: Disk<T>)
    requires d.image != first ==> d.backups != map[]
    ensures d.backups == map[] ==> d.image == first
  {
  }

  lemma {:induction false} SameMode<T(!new)>(ms: seq<Migration<T>>, disks: seq<Disk<T>>, tries: seq<Try>, n: nat)
    requires IsHistory(ms, disks, tries) && n <= |tries|
    ensures disks[n].inMemory == disks[0].inMemory
    decreases n
  {
    if n > 0 {
      SameMode(ms, disks, tries, n - 1);
    }
  }

  /** No attempt ever lowers the stamp. */
  lemma {:induction false} StampGrows<T(!new)>(ms: seq<Migration<T>>, disks: seq<Disk<T>>, tries: seq<Try>, i: nat,
                                               j: nat)
    requires IsHistory(ms, disks, tries) && i <= j <= |tries|
    ensures disks[i].image.Shape() <= disks[j].image.Shape()
    decreases j
  {
    if i < j {
      StampGrows(ms, disks, tries, i, j - 1);
      assert Attempt(ms[..tries[j - 1].k], disks[j - 1], disks[j], tries[j - 1].outcome);
    }
  }

  /** Once a store has been lifted past what a binary speaks, that binary never
      touches it again, whoever else has lifted it further since: not its content,
      not its stamp, not a backup. */
  lemma FutureRefused<T(!new)>(ms: seq<Migration<T>>, disks: seq<Disk<T>>, tries: seq<Try>, i: nat, j: nat)
    requires IsHistory(ms, disks, tries) && i <= j < |tries|
    requires disks[i].image.Shape() > tries[j].k + 1
    ensures disks[j + 1] == disks[j] && !tries[j].outcome.Done?
  {
    StampGrows(ms, disks, tries, i, j);
    assert Attempt(ms[..tries[j].k], disks[j], disks[j + 1], tries[j].outcome);
  }
}
