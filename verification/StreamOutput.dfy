/** The loop of a stream goroutine: one buffer, read into again and again, each reading copied out and framed. */
module StreamOutput {
  import opened Wrappers
  import opened Codec
  import opened Integers
  import opened ExecProducer

  /** One end of a process's output: it hands over `total` in readings of any size, and in the end an error. */
  class Reader {
    const total: seq<uint8>
    var pos: nat
    /** How many more readings may come back empty or hold the final error back. */
    var patience: nat

    constructor (total: seq<uint8>, patience: nat)
      ensures pos == 0 && this.total == total
    {
      this.total, this.patience, pos := total, patience, 0;
    }

    method Read(buf: array<uint8>) returns (n: nat, err: bool)
      requires pos <= |total| && buf.Length > 0
      modifies this, buf
      ensures n <= buf.Length && pos == old(pos) + n <= |total|
      ensures buf[..n] == total[old(pos)..pos]
      ensures err ==> pos == |total|
      ensures !err ==> |total| - pos + patience < |total| - old(pos) + old(patience)
    {
      var most := if |total| - pos < buf.Length then |total| - pos else buf.Length;
      n :| n <= most && (patience == 0 && most > 0 ==> n > 0);
      for i := 0 to n
        invariant pos == old(pos) && patience == old(patience)
        invariant buf[..i] == total[pos..pos + i]
      {
        buf[i] := total[pos + i];
        assert buf[..i + 1] == buf[..i] + [total[pos + i]];
        assert total[pos..pos + i + 1] == total[pos..pos + i] + [total[pos + i]];
      }
      pos := pos + n;
      if n == 0 && patience > 0 {
        patience := patience - 1;
        err := *;
        err := err && pos == |total|;
      } else if pos == |total| {
        err := *;
        err := err || n == 0;
      } else {
        err := false;
      }
    }
  }

  /** A connection that takes some more writes and fails from then on. */
  class Connection {
    /** What it has taken. */
    var frames: seq<seq<uint8>>
    /** What was written to it. */
    ghost var sent: seq<seq<uint8>>
    var writes: nat

    constructor (writes: nat)
      ensures Valid() && sent == [] && this.writes == writes
    {
      this.writes, frames, sent := writes, [], [];
    }

    ghost predicate Valid()
      reads this
    {
      frames <= sent && (writes > 0 ==> frames == sent)
    }

    method Write(data: seq<uint8>) returns (ok: bool)
      requires Valid()
      modifies this
      ensures Valid() && sent == old(sent) + [data]
      ensures ok == (old(writes) > 0) && frames == if ok then old(frames) + [data] else old(frames)
    {
      ok := writes > 0;
      if ok {
        frames, writes := frames + [data], writes - 1;
      }
      sent := sent + [data];
    }
  }

  /** The session after some of its own steps, and what they write. */
  function Steps(m: Msgpack, se: Session, acts: seq<LocalAction>): Option<(Session, seq<Envelope>)> {
    if acts == [] then Some((se, []))
    else
      match Steps(m, se, acts[..|acts| - 1])
      case None => None
      case Some((before, sent)) =>
        match SessionStep(m, before, acts[|acts| - 1])
        case None => None
        case Some((after, out)) => Some((after, if out.Some? then sent + [out.value] else sent))
  }

  lemma StepsMore(m: Msgpack, se: Session, acts: seq<LocalAction>, a: LocalAction)
    requires Steps(m, se, acts).Some? && SessionStep(m, Steps(m, se, acts).value.0, a).Some?
    ensures var step := SessionStep(m, Steps(m, se, acts).value.0, a).value; var sent := Steps(m, se, acts).value.1;
            Steps(m, se, acts + [a]) == Some((step.0, if step.1.Some? then sent + [step.1.value] else sent))
  {
    assert (acts + [a])[..|acts|] == acts;
  }

  /** A reading of n bytes, and the message for it if there are any, are the machine's Read and Send steps. */
  lemma ReadingIsSteps(m: Msgpack, se: Session, w: Which, acts: seq<LocalAction>, total: seq<uint8>, pos: nat, n: nat, err: bool)
    requires Steps(m, se, acts).Some? && Steps(m, se, acts).value.0 == se.Put(w, Stream(total, pos, Reading))
    requires n <= CHUNK && pos + n <= |total| && (err ==> pos + n == |total|)
    ensures var sent := Steps(m, se, acts).value.1;
            Steps(m, se, acts + Acts(w, n, err)) ==
            Some((se.Put(w, Stream(total, pos + n, if err then Returning else Reading)),
                  if n > 0 then sent + [ChunkOf(se, w, total[pos..pos + n])] else sent))
  {
    hide Steps;
    var now := se.Put(w, Stream(total, pos, Reading));
    ReadThenSend(m, se, w, total, pos, n, err);
    StepsMore(m, se, acts, Read(w, n, err));
    if n > 0 {
      var more := acts + [Read(w, n, err)];
      StepsMore(m, se, more, Send(w));
      assert acts + Acts(w, n, err) == more + [Send(w)];
    }
  }

  lemma ReadThenSend(m: Msgpack, se: Session, w: Which, total: seq<uint8>, pos: nat, n: nat, err: bool)
    requires n <= CHUNK && pos + n <= |total| && (err ==> pos + n == |total|)
    ensures var next := Stream(total, pos + n, if err then Returning else Reading);
            var read := SessionStep(m, se.Put(w, Stream(total, pos, Reading)), Read(w, n, err));
            && (n == 0 ==> read == Some((se.Put(w, next), None)))
            && (n > 0 ==> read == Some((se.Put(w, next.(pc := Sending(total[pos..pos + n], err))), None)) &&
                          SessionStep(m, read.value.0, Send(w)) ==
                          Some((se.Put(w, next), Some(ChunkOf(se, w, total[pos..pos + n])))))
  {}

  function Acts(w: Which, n: nat, err: bool): seq<LocalAction> {
    if n > 0 then [Read(w, n, err), Send(w)] else [Read(w, n, err)]
  }

  /** These steps of the session have brought its stream to `now`, and the frames of what they write were written. */
  ghost predicate Ran(m: Msgpack, se: Session, w: Which, acts: seq<LocalAction>, now: Stream,
                      before: seq<seq<uint8>>, frames: seq<seq<uint8>>) {
    var steps := Steps(m, se, acts);
    steps.Some? && steps.value.0 == se.Put(w, now) && frames == before + Frames(steps.value.1)
  }

  lemma NothingRan(m: Msgpack, se: Session, w: Which, before: seq<seq<uint8>>)
    ensures Ran(m, se, w, [], se.Get(w), before, before)
  {}

  lemma ReadingRan(m: Msgpack, se: Session, w: Which, acts: seq<LocalAction>, total: seq<uint8>, pos: nat, n: nat, err: bool,
                   before: seq<seq<uint8>>, frames: seq<seq<uint8>>)
    requires Ran(m, se, w, acts, Stream(total, pos, Reading), before, frames)
    requires n <= CHUNK && pos + n <= |total| && (err ==> pos + n == |total|)
    ensures Ran(m, se, w, acts + Acts(w, n, err), Stream(total, pos + n, if err then Returning else Reading), before,
                if n > 0 then frames + [Frame(Envelope(StreamType(w), se.channel, 0, total[pos..pos + n]))] else frames)
  {
    hide Steps, Frames, Frame, Acts;
    ReadingIsSteps(m, se, w, acts, total, pos, n, err);
    FramesMore(before, Steps(m, se, acts).value.1, ChunkOf(se, w, total[pos..pos + n]));
  }

  class Server {
    /** The connection for messages that answer nobody. */
    var active: Connection?

    function Target(conn: Connection?): Connection?
      reads this
    {
      if conn != null then conn else active
    }

    /** Without any connection the message is dropped; a failing write is logged and no more. */
    method SendEnvelope(conn: Connection?, e: Envelope)
      requires Target(conn) != null ==> Target(conn).Valid()
      modifies Target(conn)
      ensures var to := if conn != null then conn else active;
              to != null ==>
                && to.Valid() && to.sent == old(to.sent) + [Frame(e)]
                && to.frames == if old(to.writes) > 0 then old(to.frames) + [Frame(e)] else old(to.frames)
    {
      var to := conn;
      if to == null {
        to := active;
      }
      if to == null {
        return;
      }
      var data := Codec.Encode(e);
      var ok := to.Write(data);
    }

    /**
     The goroutine's loop takes the machine's Read and Send steps, from reading to returning, and writes the frames of
     what those steps write: the reused buffer never shows, and reading goes on when writes fail.
     */
    method StreamOutputTo(conn: Connection, r: Reader, w: Which, chanID: uint32, ghost m: Msgpack, ghost se: Session)
      returns (ghost acts: seq<LocalAction>)
      requires conn.Valid()
      requires r.pos <= |r.total| && se.channel == chanID && se.Get(w) == Stream(r.total, r.pos, Reading)
      modifies conn, r
      ensures conn.Valid() && Ran(m, se, w, acts, Stream(r.total, |r.total|, Returning), old(conn.sent), conn.sent)
    {
      hide Ran, Acts, Frame, Frames, Steps;
      var buf := new uint8[CHUNK];
      NothingRan(m, se, w, conn.sent);
      acts := [];
      while true
        invariant fresh(buf) && buf.Length == CHUNK && r.pos <= |r.total| && conn.Valid()
        invariant Ran(m, se, w, acts, Stream(r.total, r.pos, Reading), old(conn.sent), conn.sent)
        decreases |r.total| - r.pos + r.patience
      {
        ghost var from, sent := r.pos, conn.sent;
        var n, err := r.Read(buf);
        if n > 0 {
          SendCopy(conn, buf, n, StreamType(w), chanID);
        }
        ReadingRan(m, se, w, acts, r.total, from, n, err, old(conn.sent), sent);
        acts := acts + Acts(w, n, err);
        if err {
          return;
        }
      }
    }

    /** The payload is a copy: what the buffer holds later does not matter. */
    method SendCopy(conn: Connection, buf: array<uint8>, n: nat, msgType: uint8, chanID: uint32)
      requires n <= buf.Length && conn.Valid()
      modifies conn
      ensures conn.Valid() && conn.sent == old(conn.sent) + [Frame(Envelope(msgType, chanID, 0, buf[..n]))]
    {
      var data := new uint8[n];
      forall i | 0 <= i < n {
        data[i] := buf[i];
      }
      assert data[..] == buf[..n];
      SendEnvelope(conn, Envelope(msgType, chanID, 0, data[..]));
    }
  }

  lemma FramesMore(before: seq<seq<uint8>>, es: seq<Envelope>, e: Envelope)
    ensures before + Frames(es) + [Frame(e)] == before + Frames(es + [e])
  {
    assert (es + [e])[..|es|] == es;
  }
}
