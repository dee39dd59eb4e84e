/**
 The double-buffered DMA of the I2S and PWM sound devices: two control blocks that point at each other, an
 interrupt at the end of each, and a driver that fills the buffer that is not being read.

 Two things are taken for granted about timing, as the driver does: a completion interrupt is handled before
 the other buffer is drained, and Start fills the second buffer before the first one is drained.
 */
module SoundDma {
  import opened Options

  datatype State = Idle | Running | Cancelled | Terminating | Error

  /** The DMA channel: the buffer it reads, and the control block it will load after that, if any. */
  datatype Channel = Channel(active: bool, cur: nat, next: Option<nat>)

  /** Chunks are numbered as they come from the source; a buffer that was not filled holds none. */
  type Chunk = Option<nat>

  /** The chunks with the numbers below n, in order. */
  function UpTo(n: nat): seq<Chunk> {
    if n == 0 then [] else UpTo(n - 1) + [Some(n - 1)]
  }

  class SoundDma {
    var state: State
    var nextBuffer: nat
    var channel: Channel
    var interrupt: bool        // a completion has not been handled yet
    var starting: bool         // Start has not yet tried to fill the second buffer
    ghost var buffers: seq<Chunk>
    ghost var fetched: nat     // chunks taken from the source since Start
    ghost var played: seq<Chunk>
    ghost var glitch: bool     // cancelled between the two fills of Start, the second of which found nothing

    ghost predicate Shape()
      reads this
    {
      |buffers| == 2 && nextBuffer < 2 && channel.cur < 2 && (starting ==> !interrupt)
    }

    /** The chain runs on: the channel reads a buffer and will go on to the other one. */
    ghost predicate Looping()
      reads this
    {
      channel.active && channel.next == Some(1 - channel.cur)
    }

    /** What was played are the chunks in order but the last `ahead` ones. */
    ghost predicate InOrder(ahead: nat)
      reads this
    {
      fetched >= ahead && played == UpTo(fetched - ahead)
    }

    ghost predicate Valid()
      reads this
    {
      && Shape()
      && match state
         case Idle => !channel.active && !interrupt && !starting && (if glitch then Unfilled(2) else InOrder(0))
         case Running => FullBuffers()
         case Cancelled =>
           if glitch then !starting && Looping() && (if interrupt then channel.cur == 1 && Unfilled(1) else channel.cur == 0 && Unfilled(0))
           else FullBuffers()
         case Terminating =>
           && !starting
           && if interrupt then !channel.active && (if glitch then Unfilled(2) else InOrder(0))
              else
                && channel.active && channel.next == None
                && (if glitch then channel.cur == 1 && Unfilled(1) else InOrder(1) && buffers[channel.cur] == Some(fetched - 1))
         case Error => !starting
    }

    /** After a glitch: one chunk was taken, the second buffer was never filled, and `count` buffers were played. */
    ghost predicate Unfilled(count: nat)
      requires count <= 2
      reads this
    {
      fetched == 1 && buffers == [Some(0), None] && played == [Some(0), None][..count]
    }

    /**
     The channel reads a buffer; the other one is filled, or is about to be: by Start, or by the interrupt
     handler. The next buffer to be filled is never the one that is read.
     */
    ghost predicate FullBuffers()
      requires Shape()
      reads this
    {
      && Looping() && !glitch
      && (if starting then nextBuffer == 1 && channel.cur == 0 && fetched == 1 && played == [] && buffers == [Some(0), None]
          else if interrupt then
            nextBuffer == 1 - channel.cur && fetched >= 2 && played == UpTo(fetched - 1) && buffers[channel.cur] == Some(fetched - 1)
          else
            && nextBuffer == channel.cur && fetched >= 2 && played == UpTo(fetched - 2)
            && buffers[channel.cur] == Some(fetched - 2) && buffers[1 - channel.cur] == Some(fetched - 1))
    }

    constructor ()
      ensures Valid() && state == Idle
    {
      state, nextBuffer, interrupt, starting := Idle, 0, false, false;
      channel := Channel(false, 0, None);
      buffers, fetched, played, glitch := [None, None], 0, [], false;
    }

    /** Fills the next buffer, if the source has a chunk. The channel is never reading that buffer. */
    method GetNextChunk(available: bool) returns (ok: bool)
      requires Shape() && (channel.active ==> channel.cur != nextBuffer)
      modifies `nextBuffer, `buffers, `fetched
      ensures ok == available
      ensures if ok then buffers == old(buffers)[old(nextBuffer) := Some(old(fetched))] && fetched == old(fetched) + 1
                         && nextBuffer == 1 - old(nextBuffer)
              else unchanged(this)
    {
      if !available {
        return false;
      }
      buffers := buffers[nextBuffer := Some(fetched)];
      fetched := fetched + 1;
      nextBuffer := 1 - nextBuffer;
      ok := true;
    }

    /** The first part of Start: fills buffer 0 and starts the channel on it. The I2S device always has a first chunk. */
    method Start(available: bool) returns (ok: bool)
      requires Valid() && state == Idle
      modifies this
      ensures Valid() && ok == available && state == (if ok then Running else Idle) && starting == ok && !glitch
    {
      nextBuffer := 0;
      buffers, fetched, played, glitch := [None, None], 0, [], false;
      ok := GetNextChunk(available);
      if !ok {
        return;
      }
      state := Running;
      channel := Channel(true, 0, Some(1));
      starting := true;
    }

    /** The second part of Start: fills buffer 1. */
    method FinishStart(available: bool)
      requires Valid() && starting
      modifies this
      ensures Valid() && !starting
      ensures state == (if !available && old(state) == Running then Terminating else old(state))
      ensures glitch <==> !available && old(state) == Cancelled
      ensures !interrupt
    {
      var ok := GetNextChunk(available);
      starting := false;
      if !ok {
        if state == Running {
          channel := channel.(next := None);
          state := Terminating;
        } else {
          glitch := true;
        }
      }
    }

    method Cancel()
      requires Valid()
      modifies `state
      ensures Valid() && state == if old(state) == Running then Cancelled else old(state)
    {
      if state == Running {
        state := Cancelled;
      }
    }

    /** The channel has read its buffer: it raises the interrupt, and goes on or stops. */
    method Complete()
      requires Valid() && state != Error && channel.active && !interrupt && !starting
      modifies `channel, `interrupt, `played
      ensures Valid() && interrupt && played == old(played) + [buffers[old(channel).cur]]
      ensures channel.active == old(channel).next.Some?
    {
      played := played + [buffers[channel.cur]];
      interrupt := true;
      channel := if channel.next == None then channel.(active := false)
                 else Channel(true, channel.next.value, Some(1 - channel.next.value));
    }

    /** The interrupt handler. Cancelled or out of chunks, the device is idle after no more than two of them. */
    method InterruptHandler(error: bool, available: bool)
      requires Valid() && interrupt && state != Error
      modifies this
      ensures Valid() && !interrupt
      ensures state == if error then Error
                       else if old(state) == Terminating then Idle
                       else if old(state) == Cancelled || !available then Terminating
                       else Running
      ensures played == old(played) && glitch == old(glitch)
    {
      assert state != Idle;
      interrupt := false;
      if error {
        state := Error;
        return;
      }
      match state {
        case Running =>
          var ok := GetNextChunk(available);
          if !ok {
            Terminate();
          }
        case Cancelled => Terminate();
        case Terminating => state := Idle;
      }
    }

    method Terminate()
      modifies `channel, `state
      ensures channel == old(channel).(next := None) && state == Terminating
    {
      channel := channel.(next := None);
      state := Terminating;
    }

    /** A device that is not idle still has a completion to come or to handle, unless an error stopped it. */
    lemma NotStalled()
      requires Valid() && state != Error
      ensures state != Idle <==> channel.active || interrupt
    {
    }

    /**
     Main result. An idle device has played every chunk it took, once and in order, and nothing else, if and
     only if it was not cancelled between two fills of Start the second of which found nothing. After that it
     has played a buffer that was never filled.
     */
    lemma AllPlayed()
      requires Valid() && state == Idle
      ensures played == UpTo(fetched) <==> !glitch
      ensures !glitch ==> |played| == fetched && forall k :: 0 <= k < fetched ==> played[k] == Some(k)
      ensures glitch ==> fetched == 1 && played == [Some(0), None]
    {
      forall k | 0 <= k < fetched ensures |UpTo(fetched)| == fetched && UpTo(fetched)[k] == Some(k) {
        UpToIsOrder(fetched, k);
      }
      if glitch {
        UpToIsOrder(1, 0);
      }
    }
  }

  /** The run in which a buffer is played that was never filled. */
  method CancelDuringStart() returns (device: SoundDma)
    ensures device.Valid() && device.state == Idle && device.played == [Some(0), None] && device.fetched == 1
  {
    device := new SoundDma();
    var ok := device.Start(true);
    device.Cancel();
    device.FinishStart(false);
    device.Complete();
    device.InterruptHandler(false, false);
    device.Complete();
    device.InterruptHandler(false, false);
    device.AllPlayed();
  }

  lemma {:induction false} UpToIsOrder(n: nat, k: nat)
    requires k < n
    ensures |UpTo(n)| == n && UpTo(n)[k] == Some(k)
  {
    if k < n - 1 {
      UpToIsOrder(n - 1, k);
    } else if n > 1 {
      UpToIsOrder(n - 1, 0);
    }
  }
}
