/** The worker's own operations on the buffer and the file, run without interference: the
    retrying write, the drain that puts back what was not written, and the admission of a
    producer's bytes. A writer answers from a script; a script that has run out fails. */
module WalDrain {
  import opened Bytes
  import AB = AlignedBuffer

  /** What one `write` call reports. */
  datatype Outcome = Wrote(n: nat) | Interrupted | Failed

  /** A file opened for appending. A report beyond the bytes supplied wrote none of them. */
  class Writer {
    var disk: Bytes
    var script: seq<Outcome>

    method Write(data: Bytes) returns (o: Outcome)
      modifies this
      ensures o == if old(script) == [] then Failed else old(script)[0]
      ensures script == if old(script) == [] then [] else old(script)[1..]
      ensures disk == old(disk) + if o.Wrote? && o.n <= |data| then data[..o.n] else []
    {
      o := if script == [] then Failed else script[0];
      script := if script == [] then [] else script[1..];
      disk := disk + if o.Wrote? && o.n <= |data| then data[..o.n] else [];
    }
  }

  /** Reports the script still holds before `data` is through, counting from `written`. */
  ghost predicate Finishes(script: seq<Outcome>, left: nat) {
    left == 0 ||
    (script != [] &&
     match script[0]
     case Wrote(n) => 0 < n <= left && Finishes(script[1..], left - n)
     case Interrupted => Finishes(script[1..], left)
     case Failed => false)
  }

  /** `write_all_retry`: the file grows by exactly the bytes reported as written, and it
      succeeds exactly when the writer's answers add up to all of them. */
  method WriteAllRetry(w: Writer, data: Bytes) returns (ok: bool, written: nat)
    modifies w
    ensures written <= |data| && w.disk == old(w.disk) + data[..written]
    ensures ok <==> Finishes(old(w.script), |data|)
    ensures ok ==> written == |data|
  {
    written := 0;
    while written < |data|
      invariant 0 <= written <= |data| && w.disk == old(w.disk) + data[..written]
      invariant Finishes(old(w.script), |data|) <==> Finishes(w.script, |data| - written)
      decreases |w.script|
    {
      var o := w.Write(data[written..]);
      match o {
        case Wrote(n) =>
          if n == 0 { return false, written; }
          if n > |data| - written { return false, written; }
          assert data[..written] + data[written..][..n] == data[..written + n];
          written := written + n;
        case Interrupted =>
        case Failed =>
          return false, written;
      }
    }
    return true, written;
  }

  datatype WriteOutcome = Accepted | Dead | TooLarge | Backpressure

  /** The file, its size counter and the shared buffer. */
  class Wal {
    const writer: Writer
    const buffer: AB.Buffer
    var fileSize: nat

    constructor (w: Writer, b: AB.Buffer, size: nat)
      ensures writer == w && buffer == b && fileSize == size
    {
      writer, buffer, fileSize := w, b, size;
    }

    ghost predicate Valid()
      reads this, buffer
    {
      buffer.Valid()
    }

    /** Everything on its way to the file, in order. */
    ghost function Stream(): Bytes
      requires Valid()
      reads this, buffer, buffer.memory, writer
    {
      writer.disk + buffer.Contents()
    }

    /** `drain_to_kernel_writer`: no byte is lost, repeated or moved, whatever the writer
        does; the counter follows the file. */
    method Drain() returns (ok: bool)
      requires Valid()
      modifies this, buffer`memory, buffer`len, buffer.memory, writer
      ensures Valid() && Stream() == old(Stream())
      ensures fileSize - old(fileSize) == |writer.disk| - |old(writer.disk)|
      ensures ok ==> buffer.Contents() == [] && writer.disk == old(Stream())
      ensures ok <==> Finishes(old(writer.script), |old(buffer.Contents())|)
    {
      ghost var contents := buffer.Contents();
      var taken := buffer.Take();
      if taken.logicalLen == 0 { return true; }
      var data := taken.memory[..taken.logicalLen];
      var wrote, written := WriteAllRetry(writer, data);
      fileSize := fileSize + written;
      assert data[..written] + data[written..] == data;
      if !wrote {
        buffer.Prepend(data[written..]);
        return false;
      }
      return true;
    }

    /** `buffer_write`: the bytes join the end of the stream, or nothing happens. The worker's
        life flag is read before and after the lock is taken. */
    method BufferWrite(data: Bytes, maxBufferBytes: nat, aliveBefore: bool, aliveLocked: bool) returns (r: WriteOutcome)
      requires Valid()
      modifies buffer`memory, buffer`len, buffer.memory
      ensures Valid() && Stream() == old(Stream()) + if r.Accepted? then data else []
      ensures r.Dead? <==> !aliveBefore || !aliveLocked
      ensures r.TooLarge? <==> aliveBefore && aliveLocked && |data| > maxBufferBytes
      ensures r.Accepted? <==> aliveBefore && aliveLocked && |old(buffer.Contents())| + |data| <= maxBufferBytes
      ensures r.Accepted? ==> |buffer.Contents()| <= maxBufferBytes
    {
      if !aliveBefore { return Dead; }
      if !aliveLocked { return Dead; }
      if |data| > maxBufferBytes { return TooLarge; }
      if buffer.len > maxBufferBytes - |data| { return Backpressure; }
      buffer.Extend(data);
      return Accepted;
    }
  }
}
