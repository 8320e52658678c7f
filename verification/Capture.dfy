/** The shared output budget of a launched command (guest server.rs).

    Two reader threads append chunks under a mutex, so a run is some sequence of chunks. What is
    kept depends on the order; how much is kept, and whether anything was dropped, does not.
 */
module Capture {
  import opened Bytes

  datatype Kind = Stdout | Stderr

  datatype Chunk = Chunk(kind: Kind, bytes: seq<Byte>)

  /** Everything a run wrote to one stream. */
  function Written(run: seq<Chunk>, kind: Kind): (r: seq<Byte>) {
    if run == [] then [] else
      Written(run[..|run| - 1], kind) + (if run[|run| - 1].kind == kind then run[|run| - 1].bytes else [])
  }

  /** Everything a run wrote, on either stream. */
  function Total(run: seq<Chunk>): nat {
    |Written(run, Stdout)| + |Written(run, Stderr)|
  }

  class CapturedOutput {
    const maxBytes: nat
    var stdout: seq<Byte>
    var stderr: seq<Byte>
    var retainedBytes: nat
    var truncated: bool
    /** The chunks appended so far, in the order the mutex granted. */
    ghost var run: seq<Chunk>

    /** The budget is never exceeded; each buffer is a prefix of what its stream wrote; exactly the
        budget or everything is retained; and output counts as truncated exactly when more was
        written than the budget. */
    ghost predicate Valid()
      reads this
    {
      && retainedBytes == |stdout| + |stderr| == (if Total(run) <= maxBytes then Total(run) else maxBytes)
      && stdout <= Written(run, Stdout) && stderr <= Written(run, Stderr)
      && (truncated <==> Total(run) > maxBytes)
    }

    constructor (maxBytes: nat)
      ensures Valid() && this.maxBytes == maxBytes && run == []
    {
      this.maxBytes := maxBytes;
      stdout, stderr, retainedBytes, truncated := [], [], 0, false;
      run := [];
    }

    method Append(kind: Kind, bytes: seq<Byte>)
      requires Valid()
      modifies this
      ensures Valid() && run == old(run) + [Chunk(kind, bytes)]
      ensures old(stdout) <= stdout && old(stderr) <= stderr
      ensures kind == Stdout ==> stderr == old(stderr)
      ensures kind == Stderr ==> stdout == old(stdout)
    {
      hide Written;
      WrittenSnoc(run, Chunk(kind, bytes));
      ghost var out, err := Written(run, Stdout), Written(run, Stderr);
      run := run + [Chunk(kind, bytes)];
      var available := if retainedBytes <= maxBytes then maxBytes - retainedBytes else 0;
      var keep := if available <= |bytes| then available else |bytes|;
      if keep < |bytes| { truncated := true; }
      if keep == 0 {
        PrefixGrows(stdout, out, bytes, 0);
        PrefixGrows(stderr, err, bytes, 0);
        return;
      }
      match kind {
        case Stdout =>
          PrefixGrows(stdout, out, bytes, keep);
          stdout := stdout + bytes[..keep];
        case Stderr =>
          PrefixGrows(stderr, err, bytes, keep);
          stderr := stderr + bytes[..keep];
      }
      retainedBytes := retainedBytes + keep;
    }
  }

  lemma WrittenSnoc(run: seq<Chunk>, c: Chunk)
    ensures forall kind :: Written(run + [c], kind) == Written(run, kind) + (if c.kind == kind then c.bytes else [])
  {
    assert (run + [c])[..|run|] == run;
  }

  // A buffer that kept everything so far stays a prefix when a prefix of the next chunk is added.
  lemma PrefixGrows(buf: seq<Byte>, all: seq<Byte>, bytes: seq<Byte>, keep: nat)
    requires buf <= all && keep <= |bytes| && (keep > 0 ==> buf == all)
    ensures buf + bytes[..keep] <= all + bytes && buf <= all + bytes
  {
  }

  function Joined(chunks: seq<seq<Byte>>): seq<Byte> {
    if chunks == [] then [] else Joined(chunks[..|chunks| - 1]) + chunks[|chunks| - 1]
  }

  lemma JoinedSnoc(chunks: seq<seq<Byte>>, i: nat)
    requires i < |chunks|
    ensures Joined(chunks[..i + 1]) == Joined(chunks[..i]) + chunks[i]
  {
    assert chunks[..i + 1][..i] == chunks[..i];
  }

  /** The two readers, scheduled in any order until both streams end. Whatever the schedule and
      however the streams were cut into chunks, the outcome is `truncated` exactly when the streams
      together exceed the cap; otherwise both are captured whole. */
  method Collect(cap: nat, outs: seq<seq<Byte>>, errs: seq<seq<Byte>>)
    returns (stdout: seq<Byte>, stderr: seq<Byte>, truncated: bool)
    ensures |stdout| + |stderr| <= cap
    ensures stdout <= Joined(outs) && stderr <= Joined(errs)
    ensures truncated <==> |Joined(outs)| + |Joined(errs)| > cap
    ensures truncated ==> |stdout| + |stderr| == cap
    ensures !truncated ==> stdout == Joined(outs) && stderr == Joined(errs)
  {
    hide Joined, Written;
    var output := new CapturedOutput(cap);
    var i, j := 0, 0;
    NothingYet(outs, errs);
    while i < |outs| || j < |errs|
      invariant i <= |outs| && j <= |errs| && fresh(output) && output.Valid() && output.maxBytes == cap
      invariant Written(output.run, Stdout) == Joined(outs[..i])
      invariant Written(output.run, Stderr) == Joined(errs[..j])
      decreases |outs| - i + |errs| - j
    {
      var readsStdout: bool := *;
      if i < |outs| && (readsStdout || j == |errs|) {
        JoinedSnoc(outs, i);
        WrittenSnoc(output.run, Chunk(Stdout, outs[i]));
        output.Append(Stdout, outs[i]);
        i := i + 1;
      } else {
        JoinedSnoc(errs, j);
        WrittenSnoc(output.run, Chunk(Stderr, errs[j]));
        output.Append(Stderr, errs[j]);
        j := j + 1;
      }
    }
    assert outs[..i] == outs && errs[..j] == errs;
    stdout, stderr, truncated := output.stdout, output.stderr, output.truncated;
  }

  lemma NothingYet(outs: seq<seq<Byte>>, errs: seq<seq<Byte>>)
    ensures Written([], Stdout) == Joined(outs[..0]) && Written([], Stderr) == Joined(errs[..0])
  {
  }
}
