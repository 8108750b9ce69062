/** AsyncLogging: append and the backend's round as the source runs them, on buffers that
    one pointer owns at a time and that are therefore given by their contents. */
module AsyncLogging {
  import opened Basics
  import opened AsyncLog

  /** The lines that a large buffer can hold. */
  ghost function Kept(size: nat, lines: seq<string>): string {
    if lines == [] then ""
    else Kept(size, lines[..|lines| - 1]) + if |lines[|lines| - 1]| < size then lines[|lines| - 1] else ""
  }

  class Logger {
    const size: nat
    var currentBuffer: string
    var nextBuffer: Option<string>
    var buffers: seq<string>
    var newBuffer1: Option<string>
    var newBuffer2: Option<string>
    var buffersToWrite: seq<string>
    var written: nat
    var output: string
    ghost var phase: Phase
    ghost var logged: string
    ghost var atSwap: string

    ghost function State(): Log
      reads this
    {
      Log(size, currentBuffer, nextBuffer, buffers, phase, newBuffer1, newBuffer2, buffersToWrite, written, output, logged, atSwap)
    }

    constructor (size: nat := LARGE_BUFFER)
      ensures Inv(State()) && State() == Initial(size)
    {
      hide Inv;
      this.size := size;
      currentBuffer, nextBuffer, buffers := "", Some(""), [];
      newBuffer1, newBuffer2, buffersToWrite, written, output := Some(""), Some(""), [], 0, "";
      phase, logged, atSwap := Waiting, "", "";
      new;
      InitialInv(size);
    }

    /** append, under the lock: the file, the buffers on their way to it and those of the
        front end hold what they held and the line, unless no buffer could hold it. */
    method Append(line: string)
      requires Inv(State())
      modifies this`currentBuffer, this`nextBuffer, this`buffers, this`logged
      ensures Inv(State()) && State() == AsyncLog.Append(old(State()), line)
      ensures logged == old(logged) + if |line| < size then line else ""
    {
      hide Inv, FixedAppend;
      AppendKeeps(State(), line);
      if |line| < size { logged := logged + line; }
      if size - |currentBuffer| > |line| {
        currentBuffer := FixedAppend(size, currentBuffer, line);
      } else {
        buffers := buffers + [currentBuffer];
        match nextBuffer {
          case Some(b) => currentBuffer, nextBuffer := b, None;
          case None => currentBuffer := "";
        }
        currentBuffer := FixedAppend(size, currentBuffer, line);
      }
    }

    /** The backend's critical section, after its wait. */
    method Swap()
      requires Inv(State()) && phase == Waiting
      modifies this
      ensures Inv(State()) && SwapBuffers(old(State())) == Some(State())
    {
      hide Inv;
      SwapKeeps(State());
      buffers := buffers + [currentBuffer];
      currentBuffer, newBuffer1 := newBuffer1.value, None;
      if nextBuffer == None {
        nextBuffer, newBuffer2 := newBuffer2, None;
      }
      buffersToWrite, buffers, written := buffers, [], 0;
      phase, atSwap := Writing, logged;
    }

    /** One round of the loop that writes. */
    method WriteNext()
      requires Inv(State()) && phase == Writing && written < |buffersToWrite|
      modifies this`output, this`written
      ensures Inv(State()) && State() == WriteOne(old(State()))
    {
      hide Inv;
      WriteKeeps(State());
      output := output + buffersToWrite[written];
      written := written + 1;
    }

    /** The end of a round: both spares come from the end of the vector. */
    method RecycleBuffers()
      requires Inv(State()) && phase == Writing && written == |buffersToWrite|
      modifies this
      ensures Inv(State()) && Recycle(old(State())) == Some(State())
    {
      hide Inv;
      RecycleKeeps(State());
      if |buffersToWrite| > 2 { buffersToWrite := buffersToWrite[..2]; }
      if newBuffer1 == None {
        buffersToWrite := buffersToWrite[..|buffersToWrite| - 1];
        newBuffer1 := Some("");
      }
      if newBuffer2 == None {
        buffersToWrite := buffersToWrite[..|buffersToWrite| - 1];
        newBuffer2 := Some("");
      }
      buffersToWrite, written := [], 0;
      phase := Waiting;
    }

    /** Lines that other threads log for a while. */
    method Meanwhile(lines: seq<string>)
      requires Inv(State())
      modifies this`currentBuffer, this`nextBuffer, this`buffers, this`logged
      ensures Inv(State()) && logged == old(logged) + Kept(size, lines)
    {
      hide Inv, AsyncLog.Append;
      for i := 0 to |lines|
        invariant Inv(State()) && logged == old(logged) + Kept(size, lines[..i])
      {
        assert lines[..i + 1][..i] == lines[..i];
        Append(lines[i]);
      }
      assert lines[..|lines|] == lines;
    }

    /** A round of the backend, with `lines[i]` what is logged while it writes buffer `i`: the
        file gets everything that was logged before the round, and nothing else. */
    method Round(lines: seq<seq<string>>)
      requires Inv(State()) && phase == Waiting
      modifies this
      ensures Inv(State()) && phase == Waiting
      ensures output == old(logged) <= logged
    {
      hide Inv, AsyncLog.Append, Recycle;
      Swap();
      while written < |buffersToWrite|
        invariant Inv(State()) && phase == Writing && written <= |buffersToWrite|
        invariant atSwap == old(logged) <= logged
        decreases |buffersToWrite| - written
      {
        Meanwhile(if written < |lines| then lines[written] else []);
        WriteNext();
      }
      AllWritten(State());
      RecycleKeeps(State());
      RecycleParts(State());
      RecycleBuffers();
    }
  }

  lemma {:induction false} AllWritten(l: Log)
    requires Inv(l) && l.written == |l.toWrite|
    ensures l.output == l.atSwap
  {
    assert l.toWrite[l.written..] == [];
  }

  lemma {:induction false} RecycleParts(l: Log)
    ensures Recycle(l).Some? ==>
      var r := Recycle(l).value; r.output == l.output && r.logged == l.logged && r.phase == Waiting
  {}
}
