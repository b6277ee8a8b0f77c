/** One client of the control socket as the object it is (src/control_socket.hpp): what its
    handlers do in their bounded loops is a run of the steps that `ControlSocket` reasons
    about. */
module SocketObject {
  import opened Bytes
  import S = ControlSocket

  const TURNS := 4

  lemma RunSnoc(sv: S.Service, events: seq<S.Event>, ev: S.Event)
    ensures S.Run(sv, events + [ev]) == S.Step(sv, S.Run(sv, events), ev)
  {
    hide S.Inv, S.Step;
    assert (events + [ev])[..|events|] == events;
  }

  function Receives(gots: seq<S.Got>): seq<S.Event> { seq(|gots|, i requires 0 <= i < |gots| => S.Receive(gots[i])) }
  function Sends(results: seq<S.SendResult>): seq<S.Event> {
    seq(|results|, i requires 0 <= i < |results| => S.Send(results[i]))
  }

  class Transaction {
    const sv: S.Service
    var c: S.Client
    ghost var got: seq<bytes>
    ghost var events: seq<S.Event>

    /** The client is what the events so far have made of it. */
    ghost predicate Valid()
      reads this
    {
      S.System(c, got) == S.Run(sv, events)
    }

    constructor (sv: S.Service)
      ensures Valid() && this.sv == sv && events == []
    {
      this.sv := sv;
      c, got, events := S.FRESH, [], [];
    }

    /** One record, or the lack of one. */
    method Take(g: S.Got)
      requires Valid() && S.Reading(c)
      modifies this
      ensures Valid() && events == old(events) + [S.Receive(g)]
    {
      hide S.Run, S.OnRecord, S.Inv;
      RunSnoc(sv, events, S.Receive(g));
      match g {
        case Record(r) =>
          if r == [] {
            c := c.(closed := true);
          } else {
            c := S.OnRecord(sv, c, r);
            got := got + [r];
          }
        case Busy =>
        case Hangup => c := c.(closed := true);
      }
      events := events + [S.Receive(g)];
    }

    /** Readiness to read: up to four records, until there is none or the request is
        complete. `used` tells how many of the socket's answers were consumed. */
    method Readable(gots: seq<S.Got>) returns (used: nat)
      requires Valid()
      modifies this
      ensures Valid() && used <= |gots| && used <= TURNS && events == old(events) + Receives(gots[..used])
      ensures used == TURNS || used == |gots| || !S.Reading(c) || (used > 0 && gots[used - 1].Busy?)
    {
      hide S.Run, S.Inv, S.Reading;
      used := 0;
      assert events + [] == events;
      while used < TURNS && used < |gots| && S.Reading(c)
        invariant Valid() && used <= |gots| && used <= TURNS && events == old(events) + Receives(gots[..used])
        invariant used > 0 && gots[used - 1].Busy? ==> used == 0
        decreases TURNS - used
      {
        Take(gots[used]);
        assert Receives(gots[..used + 1]) == Receives(gots[..used]) + [S.Receive(gots[used])];
        used := used + 1;
        if gots[used - 1].Busy? { return; }
      }
    }

    /** Readiness to write: up to four records of the answer. */
    method Writable(results: seq<S.SendResult>) returns (used: nat)
      requires Valid()
      modifies this
      ensures Valid() && used <= |results| && used <= TURNS && events == old(events) + Sends(results[..used])
      ensures used == TURNS || used == |results| || !c.responding || c.closed || (used > 0 && results[used - 1].Again?)
    {
      hide S.Run, S.Rest, S.Frames, S.FlushTurn, Text, S.Asked, S.Bad;
      used := 0;
      assert events + [] == events;
      while used < TURNS && used < |results| && c.responding && !c.closed
        invariant Valid() && used <= |results| && used <= TURNS && events == old(events) + Sends(results[..used])
        invariant used > 0 && results[used - 1].Again? ==> used == 0
        decreases TURNS - used
      {
        var result := results[used];
        RunSnoc(sv, events, S.Send(result));
        var f := S.FlushTurn(c, result);
        c := f.0.(closed := f.1);
        events := events + [S.Send(result)];
        assert Sends(results[..used + 1]) == Sends(results[..used]) + [S.Send(result)];
        used := used + 1;
        if result.Again? { return; }
      }
    }

    /** The answer to a request handed to a remote component. */
    method Resolve(reply: S.Reply)
      requires Valid()
      modifies this
      ensures Valid() && events == old(events) + [S.Answered(reply)]
    {
      hide S.Run, S.Inv;
      RunSnoc(sv, events, S.Answered(reply));
      if c.pending && !c.closed { c := S.Respond(c.(pending := false), reply.body, reply.success, reply.rejected); }
      events := events + [S.Answered(reply)];
    }
  }
}
