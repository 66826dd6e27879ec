/** One multiplexed session: its pinned connections, and the pipe that each is read from. */
module MuxSession {
  import opened Bytes
  import R = MuxRuns

  /** Closing a pipe closes two channels, which must not happen twice. */
  class ConnPipe {
    var closed: bool

    constructor ()
      ensures !closed
    {
      closed := false;
    }

    method Close()
      requires !closed
      modifies this
      ensures closed
    {
      closed := true;
    }
  }

  /** The pipes are open, and no two connections share one. */
  ghost predicate OwnOpenPipes(readers: map<u32, ConnPipe>)
    reads readers.Values
  {
    && (forall id :: id in readers ==> !readers[id].closed)
    && (forall i, j :: i in readers && j in readers && i != j ==> readers[i] != readers[j])
  }

  class MuxSession {
    var pinned: set<u32>
    var readers: map<u32, ConnPipe>
    var closed: bool

    /** Exactly the pinned connections have a pipe. */
    ghost predicate Valid()
      reads this, readers.Values
    {
      pinned == readers.Keys && OwnOpenPipes(readers)
    }

    function View(): R.Session
      reads this
    {
      R.Session(pinned, closed)
    }

    constructor ()
      ensures Valid() && View() == R.NEW_SESSION
    {
      pinned, readers, closed := {}, map[], false;
    }

    predicate IsClosed()
      reads this
    {
      closed
    }

    function PinCount(): nat
      reads this
    {
      |pinned|
    }

    predicate HasPin(connId: u32)
      reads this
    {
      connId in pinned
    }

    method Pin(connId: u32)
      requires Valid()
      modifies this
      ensures Valid() && View() == R.Next(old(View()), R.Pin(connId))
      ensures connId in old(readers) ==> readers == old(readers)
      ensures connId !in old(readers) ==> fresh(readers[connId]) && readers == old(readers)[connId := readers[connId]]
    {
      pinned := pinned + {connId};
      if connId !in readers {
        var pipe := new ConnPipe();
        readers := readers[connId := pipe];
      }
    }

    /** Closes one pipe, if it is still open, and forgets it. */
    method DropReader(connId: u32)
      requires connId in readers && OwnOpenPipes(readers)
      modifies `readers, readers[connId]
      ensures readers == old(readers) - {connId} && OwnOpenPipes(readers) && old(readers)[connId].closed
    {
      var p := readers[connId];
      if !p.closed {
        p.Close();
      }
      readers := readers - {connId};
    }

    method Unpin(connId: u32)
      requires Valid()
      modifies this, readers.Values
      ensures Valid() && View() == R.Next(old(View()), R.Unpin(connId))
      ensures readers == old(readers) - {connId}
      ensures connId in old(readers) ==> old(readers)[connId].closed
      ensures forall id :: id in old(readers) && id != connId ==> unchanged(old(readers)[id])
    {
      pinned := pinned - {connId};
      if connId in readers {
        DropReader(connId);
      }
    }

    method OpenConnReader(connId: u32) returns (pipe: ConnPipe)
      requires Valid()
      modifies this
      ensures Valid() && View() == R.Next(old(View()), R.OpenReader(connId))
      ensures connId in readers && pipe == readers[connId] && !pipe.closed
      ensures connId in old(readers) ==> readers == old(readers)
      ensures connId !in old(readers) ==> fresh(pipe) && readers == old(readers)[connId := pipe]
    {
      if connId in readers {
        pipe := readers[connId];
      } else {
        pipe := new ConnPipe();
        readers := readers[connId := pipe];
        pinned := pinned + {connId};
      }
    }

    method Close()
      requires Valid()
      modifies this, readers.Values
      ensures Valid() && View() == R.Next(old(View()), R.Close)
      ensures old(closed) ==> readers == old(readers)
      ensures old(closed) ==> forall p :: p in old(readers).Values ==> unchanged(p)
      ensures !old(closed) ==> readers == map[]
      ensures !old(closed) ==> forall p :: p in old(readers).Values ==> p.closed
    {
      if closed {
        return;
      }
      closed := true;
      ghost var all := readers;
      while readers.Keys != {}
        invariant closed && OwnOpenPipes(readers)
        invariant forall id :: id in readers ==> id in all && readers[id] == all[id]
        invariant forall id :: id in all && id !in readers ==> all[id].closed
        decreases readers.Keys
      {
        var id :| id in readers.Keys;
        DropReader(id);
      }
      pinned := {};
      assert readers == map[];
    }
  }
}
