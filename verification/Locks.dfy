/** The lock object of ReadWriteLock.cpp: the fields of the step machine, updated in place. */
module Locks {
  import opened Options
  import opened LockSteps
  import opened LockInvariant

  /** Each method executes the line thread t stands at. The object keeps the invariant of
      all runs. */
  class ReadWriteLock {
    var readCount: nat
    var writeCount: nat
    var readEvent: bool
    var writeEvent: bool
    var owner: Option<Thread>
    var depth: nat
    ghost var pcs: map<Thread, PC>
    ghost var readers: multiset<Thread>
    ghost var writers: multiset<Thread>

    ghost function View(): State
      reads this
    {
      State(readCount, writeCount, readEvent, writeEvent, owner, depth, pcs, readers, writers)
    }

    constructor ()
      ensures View() == Init && Inv(View())
    {
      readEvent, writeEvent := true, true;
      readCount, writeCount := 0, 0;
      owner, depth := None, 0;
      pcs, readers, writers := map[], multiset{}, multiset{};
    }

    method LockRead(t: Thread, line: PC)
      requires Inv(View()) && Fits(LockReadLine(View(), t))
      requires line == PcOf(View(), t) && InLockRead(line) && Enabled(View(), t, Advance)
      modifies this
      ensures View() == LockReadLine(old(View()), t) && Inv(View())
    {
      hide Inv;
      LockReadKeepsInv(View(), t);
      if line == R58 {
        pcs := pcs[t := R60];
      } else if line == R60 {
        var previous := readCount;
        readCount := Inc(readCount);
        readers := Add(readers, t);
        pcs := pcs[t := if previous == 0 then R62 else Outside];
      } else {
        readEvent := false;
        pcs := pcs[t := Outside];
      }
    }

    method UnlockRead(t: Thread, line: PC)
      requires Inv(View()) && Fits(UnlockReadLine(View(), t))
      requires line == PcOf(View(), t) && InUnlockRead(line)
      modifies this
      ensures View() == UnlockReadLine(old(View()), t) && Inv(View())
    {
      hide Inv;
      UnlockReadKeepsInv(View(), t);
      if line == R68 {
        readCount := Dec(readCount);
        readers := Remove(readers, t);
        pcs := pcs[t := if readCount == 0 then R70 else Outside];
      } else {
        readEvent := true;
        pcs := pcs[t := Outside];
      }
    }

    method LockWrite(t: Thread, line: PC)
      requires Inv(View()) && Fits(LockWriteLine(View(), t))
      requires line == PcOf(View(), t) && InLockWrite(line) && Enabled(View(), t, Advance)
      modifies this
      ensures View() == LockWriteLine(old(View()), t) && Inv(View())
    {
      hide Inv;
      LockWriteKeepsInv(View(), t);
      if line == W77 {
        owner, depth := Some(t), depth + 1;
        pcs := pcs[t := W80];
      } else if line == W80 {
        writeEvent := false;
        pcs := pcs[t := W82];
      } else if line == W82 {
        var previous := writeCount;
        writeCount := Inc(writeCount);
        if previous == 0 {
          pcs := pcs[t := W85];
        } else {
          writers := Add(writers, t);
          pcs := pcs[t := Outside];
        }
      } else {
        writers := Add(writers, t);
        pcs := pcs[t := Outside];
      }
    }

    method UnlockWrite(t: Thread, line: PC)
      requires Inv(View()) && Fits(UnlockWriteLine(View(), t))
      requires line == PcOf(View(), t) && InUnlockWrite(line)
      modifies this
      ensures View() == UnlockWriteLine(old(View()), t) && Inv(View())
    {
      hide Inv;
      UnlockWriteKeepsInv(View(), t);
      if line == W91 {
        writeCount := Dec(writeCount);
        pcs := pcs[t := if writeCount == 0 then W94 else W97];
      } else if line == W94 {
        writeEvent := true;
        pcs := pcs[t := W97];
      } else {
        depth := if depth <= 1 then 0 else depth - 1;
        owner := if depth == 0 then None else owner;
        pcs := pcs[t := Outside];
      }
    }
  }
}
