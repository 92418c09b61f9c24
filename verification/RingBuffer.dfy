/**
 The ring buffer between the audio callbacks: a bounded queue of frames of interleaved samples.
 */
module RingBuffer {

  function Min(a: nat, b: nat): nat {
    if a <= b then a else b
  }

  /** How many samples so many frames are. */
  function Scaled(frames: nat, channels: nat): nat {
    frames * channels
  }

  lemma ScaledMonotonic(a: nat, b: nat, c: nat)
    requires a <= b
    ensures Scaled(a, c) <= Scaled(b, c) && Scaled(b - a, c) == Scaled(b, c) - Scaled(a, c)
    ensures a < b && c > 0 ==> Scaled(a, c) < Scaled(b, c)
  {
    if a < b {
      assert b * c == a * c + (b - a) * c;
    }
  }

  lemma ScaledSum(a: nat, b: nat, c: nat)
    ensures Scaled(a + b, c) == Scaled(a, c) + Scaled(b, c)
  {
  }

  /** The stretch of `n` samples from `start` on, going on at the front behind the end. */
  function Stretch(s: seq<real>, start: nat, n: nat): (r: seq<real>)
    requires start <= |s| && n <= |s|
    ensures |r| == n
  {
    if start + n <= |s| then s[start..start + n] else s[start..] + s[..start + n - |s|]
  }

  /** `s` with `x` written over it from `start` on, going on at the front behind the end. */
  function Overwritten(s: seq<real>, start: nat, x: seq<real>): (r: seq<real>)
    requires start <= |s| && |x| <= |s|
    ensures |r| == |s|
  {
    if start + |x| <= |s| then s[..start] + x + s[start + |x|..]
    else x[|s| - start..] + s[start + |x| - |s|..start] + x[..|s| - start]
  }

  /** Where a position in the ring lies. */
  function Wrapped(i: nat, n: nat): nat
    requires i < 2 * n
  {
    if i >= n then i - n else i
  }

  lemma StretchPieces(s: seq<real>, start: nat, n: nat)
    requires start <= |s| && n <= |s|
    ensures start + n <= |s| ==> Stretch(s, start, n) == s[start..start + n]
    ensures start + n > |s| ==> Stretch(s, start, n) == s[start..] + s[..start + n - |s|]
  {
  }

  lemma StretchAt(s: seq<real>, start: nat, n: nat, i: nat)
    requires start < |s| && n <= |s| && i < n
    ensures Stretch(s, start, n)[i] == s[Wrapped(start + i, |s|)]
  {
  }

  lemma OverwrittenAt(s: seq<real>, start: nat, x: seq<real>, i: nat)
    requires start < |s| && |x| <= |s| && i < |s|
    ensures Overwritten(s, start, x)[Wrapped(start + i, |s|)] == if i < |x| then x[i] else s[Wrapped(start + i, |s|)]
  {
  }

  lemma WriteBehindAt(s: seq<real>, start: nat, used: nat, x: seq<real>, i: nat)
    requires start < |s| && used + |x| <= |s| && i < used + |x|
    ensures Stretch(Overwritten(s, Wrapped(start + used, |s|), x), start, used + |x|)[i] ==
            if i < used then Stretch(s, start, used)[i] else x[i - used]
  {
    hide Stretch, Overwritten;
    var end := Wrapped(start + used, |s|);
    StretchAt(Overwritten(s, end, x), start, used + |x|, i);
    if i < used {
      StretchAt(s, start, used, i);
      assert Wrapped(end + (|s| - used + i), |s|) == Wrapped(start + i, |s|);
      OverwrittenAt(s, end, x, |s| - used + i);
    } else {
      assert Wrapped(end + (i - used), |s|) == Wrapped(start + i, |s|);
      OverwrittenAt(s, end, x, i - used);
    }
  }

  /** Writing behind a stretch makes it longer by what is written. */
  lemma WriteBehind(s: seq<real>, start: nat, used: nat, x: seq<real>)
    requires start < |s| && used + |x| <= |s|
    ensures Stretch(Overwritten(s, Wrapped(start + used, |s|), x), start, used + |x|) == Stretch(s, start, used) + x
  {
    hide Stretch, Overwritten;
    var t := Stretch(Overwritten(s, Wrapped(start + used, |s|), x), start, used + |x|);
    forall i | 0 <= i < used + |x| ensures t[i] == (Stretch(s, start, used) + x)[i] {
      WriteBehindAt(s, start, used, x, i);
    }
  }

  /** Taking from the front of a stretch leaves the rest of it. */
  lemma ReadAhead(s: seq<real>, start: nat, used: nat, n: nat)
    requires start < |s| && n <= used <= |s|
    ensures Stretch(s, start, used) == Stretch(s, start, n) + Stretch(s, Wrapped(start + n, |s|), used - n)
  {
    hide Stretch;
    var next := Wrapped(start + n, |s|);
    forall i | 0 <= i < used
      ensures Stretch(s, start, used)[i] == (Stretch(s, start, n) + Stretch(s, next, used - n))[i]
    {
      StretchAt(s, start, used, i);
      if i < n {
        StretchAt(s, start, n, i);
      } else {
        StretchAt(s, next, used - n, i - n);
      }
    }
  }

  lemma InOnePiece(s: seq<real>, at: nat, x: seq<real>, u: seq<real>)
    requires at + |x| <= |s| && u == s[..at] + x + s[at + |x|..]
    ensures u == Overwritten(s, at, x)
  {
  }

  /** Overwriting in two pieces, at the end and at the front. */
  lemma InTwoPieces(s: seq<real>, at: nat, x: seq<real>, t: seq<real>, u: seq<real>)
    requires at <= |s| && |x| <= |s| < at + |x|
    requires t == s[..at] + x[..|s| - at] && u == x[|s| - at..] + t[at + |x| - |s|..]
    ensures u == Overwritten(s, at, x)
  {
  }

  lemma OnePiece(s: seq<real>, at: nat, y: seq<real>, k: nat, u: seq<real>)
    requires k <= |y| && at + k <= |s| && u == s[..at] + y[0..k] + s[at + k..]
    ensures u == Overwritten(s, at, y[..k])
  {
    hide Overwritten;
    assert y[0..k] == y[..k];
    InOnePiece(s, at, y[..k], u);
  }

  lemma TwoPieces(s: seq<real>, at: nat, y: seq<real>, k: nat, first: nat, t: seq<real>, u: seq<real>)
    requires first <= k <= |y| && at + first == |s| < at + k && k <= |s|
    requires t == s[..at] + y[0..first] + s[at + first..]
    requires u == t[..0] + y[first..k] + t[0 + (k - first)..]
    ensures u == Overwritten(s, at, y[..k])
  {
    hide Overwritten;
    var x := y[..k];
    assert y[0..first] == x[..first] && y[first..k] == x[first..];
    assert t == s[..at] + x[..first];
    assert u == x[first..] + t[k - first..];
    InTwoPieces(s, at, x, t, u);
  }

  /** Counts of frames and of samples, for a stretch of `n` frames from `at` on in a ring of `all`. */
  lemma SampleCounts(at: nat, n: nat, all: nat, channels: nat)
    requires at < all && n <= all
    ensures Scaled(at, channels) <= Scaled(all, channels) && Scaled(n, channels) <= Scaled(all, channels)
    ensures Scaled(all - at, channels) == Scaled(all, channels) - Scaled(at, channels)
    ensures n <= all - at ==> Scaled(at, channels) + Scaled(n, channels) <= Scaled(all, channels)
    ensures n > all - at ==> Scaled(n - (all - at), channels) == Scaled(at, channels) + Scaled(n, channels) - Scaled(all, channels)
                             && Scaled(at, channels) + Scaled(n, channels) >= Scaled(all, channels)
    ensures channels > 0 && n > all - at ==> Scaled(at, channels) + Scaled(n, channels) > Scaled(all, channels)
  {
    ScaledMonotonic(at, all, channels);
    ScaledMonotonic(n, all, channels);
    ScaledSum(at, n, channels);
    if n <= all - at {
      ScaledMonotonic(at + n, all, channels);
    } else {
      ScaledMonotonic(all, at + n, channels);
      ScaledMonotonic(1, at + n - all, channels);
    }
  }

  lemma Associative(a: seq<real>, b: seq<real>, c: seq<real>)
    ensures a + b + c == a + (b + c)
  {
  }

  /** Copies a stretch of one array into another. */
  method Copy(target: array<real>, at: nat, source: array<real>, start: nat, n: nat)
    requires target != source && at + n <= target.Length && start + n <= source.Length
    modifies target
    ensures target[..] == old(target[..at]) + source[start..start + n] + old(target[at + n..])
  {
    for i := 0 to n
      invariant target[..] == old(target[..at]) + source[start..start + i] + old(target[at + i..])
    {
      target[at + i] := source[start + i];
    }
  }

  method Zero(target: array<real>, at: nat, n: nat)
    requires at + n <= target.Length
    modifies target
    ensures target[..at] == old(target[..at]) && target[at + n..] == old(target[at + n..])
    ensures forall i :: at <= i < at + n ==> target[i] == 0.0
  {
    for i := 0 to n
      invariant target[..at] == old(target[..at]) && target[at + i..] == old(target[at + i..])
      invariant forall j :: at <= j < at + i ==> target[j] == 0.0
    {
      target[at + i] := 0.0;
    }
  }

  class Ring {
    var buffer: array?<real>
    var bufferFrames: nat
    var channels: nat
    var readPos: nat
    var framesUsed: nat
    /** The samples accepted and those handed out since the last reset. */
    ghost var accepted: seq<real>
    ghost var handedOut: seq<real>

    ghost predicate Valid()
      reads this, buffer
    {
      && (buffer != null <==> bufferFrames > 0 && channels > 0)
      && (buffer == null ==> readPos == 0 && framesUsed == 0)
      && (buffer != null ==>
            buffer.Length == Scaled(bufferFrames, channels) && readPos < bufferFrames && framesUsed <= bufferFrames
            && Scaled(readPos, channels) < buffer.Length && Scaled(framesUsed, channels) <= buffer.Length)
      && handedOut + Samples() == accepted
    }

    /** The samples waiting to be read, oldest first. */
    ghost function Samples(): (r: seq<real>)
      reads this, buffer
    {
      if buffer != null && Scaled(readPos, channels) <= buffer.Length && Scaled(framesUsed, channels) <= buffer.Length
      then Stretch(buffer[..], Scaled(readPos, channels), Scaled(framesUsed, channels)) else []
    }

    constructor ()
      ensures Valid() && buffer == null && bufferFrames == 0 && channels == 0
    {
      buffer, bufferFrames, channels, readPos, framesUsed := null, 0, 0, 0, 0;
      accepted, handedOut := [], [];
    }

    /** A new buffer of the present size, if that is not empty; what was waiting is gone. */
    method RecreateBuffer()
      modifies this
      ensures Valid() && Samples() == [] && accepted == [] && handedOut == []
      ensures bufferFrames == old(bufferFrames) && channels == old(channels)
      ensures buffer != null ==> fresh(buffer) && forall i :: 0 <= i < buffer.Length ==> buffer[i] == 0.0
    {
      if bufferFrames > 0 && channels > 0 {
        ScaledMonotonic(1, bufferFrames, channels);
        buffer := new real[Scaled(bufferFrames, channels)](_ => 0.0);
      } else {
        buffer := null;
      }
      readPos, framesUsed := 0, 0;
      accepted, handedOut := [], [];
    }

    method SetNumberOfChannels(n: nat)
      requires Valid()
      modifies this
      ensures Valid() && channels == n && bufferFrames == old(bufferFrames)
      ensures if n == old(channels) then buffer == old(buffer) && Samples() == old(Samples()) && accepted == old(accepted) && handedOut == old(handedOut)
              else Samples() == [] && accepted == [] && handedOut == []
    {
      if n != channels {
        channels := n;
        RecreateBuffer();
      }
    }

    method SetBufferLength(n: nat)
      requires Valid()
      modifies this
      ensures Valid() && bufferFrames == n && channels == old(channels)
      ensures if n == old(bufferFrames) then buffer == old(buffer) && Samples() == old(Samples()) && accepted == old(accepted) && handedOut == old(handedOut)
              else Samples() == [] && accepted == [] && handedOut == []
    {
      if n != bufferFrames {
        bufferFrames := n;
        RecreateBuffer();
      }
    }

    method Clear()
      requires Valid()
      modifies this, buffer
      ensures Valid() && Samples() == [] && buffer == old(buffer)
      ensures bufferFrames == old(bufferFrames) && channels == old(channels)
      ensures buffer != null ==> accepted == [] && handedOut == [] && forall i :: 0 <= i < buffer.Length ==> buffer[i] == 0.0
    {
      if buffer != null {
        Zero(buffer, 0, buffer.Length);
        readPos, framesUsed := 0, 0;
        accepted, handedOut := [], [];
      }
    }

    /** What a position in frames is in samples, once it has been wrapped. */
    lemma WritePosition()
      requires Valid() && buffer != null
      ensures var at := Wrapped(readPos + framesUsed, bufferFrames);
              at < bufferFrames && Scaled(at, channels) < buffer.Length
              && Scaled(at, channels) == Wrapped(Scaled(readPos, channels) + Scaled(framesUsed, channels), buffer.Length)
              && Scaled(bufferFrames - at, channels) == buffer.Length - Scaled(at, channels)
    {
      var at := Wrapped(readPos + framesUsed, bufferFrames);
      ScaledSum(readPos, framesUsed, channels);
      ScaledMonotonic(at + 1, bufferFrames, channels);
      ScaledSum(at, 1, channels);
      ScaledMonotonic(at, bufferFrames, channels);
      if readPos + framesUsed >= bufferFrames {
        ScaledMonotonic(bufferFrames, readPos + framesUsed, channels);
      } else {
        ScaledMonotonic(readPos + framesUsed, bufferFrames, channels);
      }
    }

    /** Writes frames into the ring, at the end and then at the front. */
    method WriteAt(input: array<real>, writePos: nat, frames: nat)
      requires buffer != null && buffer.Length == Scaled(bufferFrames, channels) && writePos < bufferFrames && frames <= bufferFrames
      requires channels > 0 && Scaled(frames, channels) <= input.Length && input != buffer
      modifies buffer
      ensures Scaled(writePos, channels) <= buffer.Length && Scaled(frames, channels) <= buffer.Length
      ensures buffer[..] == Overwritten(old(buffer[..]), Scaled(writePos, channels), input[..Scaled(frames, channels)])
    {
      hide Scaled, Overwritten;
      SampleCounts(writePos, frames, bufferFrames, channels);
      ghost var s, at, k := buffer[..], Scaled(writePos, channels), Scaled(frames, channels);
      var unwrapped := Min(frames, bufferFrames - writePos);
      ghost var first := Scaled(unwrapped, channels);
      Copy(buffer, Scaled(writePos, channels), input, 0, Scaled(unwrapped, channels));
      if unwrapped < frames {
        ghost var t := buffer[..];
        var wrapped := frames - unwrapped;
        Copy(buffer, 0, input, Scaled(unwrapped, channels), Scaled(wrapped, channels));
        TwoPieces(s, at, input[..], k, first, t, buffer[..]);
      } else {
        OnePiece(s, at, input[..], k, buffer[..]);
      }
    }

    /** Reads frames out of the ring, from the end and then from the front. */
    method ReadAt(output: array<real>, frames: nat)
      requires buffer != null && buffer.Length == Scaled(bufferFrames, channels) && readPos < bufferFrames && frames <= bufferFrames
      requires channels > 0 && Scaled(frames, channels) <= output.Length && output != buffer
      modifies output
      ensures Scaled(readPos, channels) <= buffer.Length && Scaled(frames, channels) <= buffer.Length
      ensures output[..] == Stretch(buffer[..], Scaled(readPos, channels), Scaled(frames, channels)) + old(output[Scaled(frames, channels)..])
    {
      hide Scaled, Stretch;
      SampleCounts(readPos, frames, bufferFrames, channels);
      ghost var s, at, k := buffer[..], Scaled(readPos, channels), Scaled(frames, channels);
      StretchPieces(s, at, k);
      var unwrapped := Min(frames, bufferFrames - readPos);
      Copy(output, 0, buffer, Scaled(readPos, channels), Scaled(unwrapped, channels));
      if unwrapped < frames {
        var wrapped := frames - unwrapped;
        ghost var t := output[..];
        assert t[..Scaled(unwrapped, channels)] == s[at..];
        assert t[k..] == old(output[k..]);
        Copy(output, Scaled(unwrapped, channels), buffer, 0, Scaled(wrapped, channels));
        assert output[..] == s[at..] + s[..Scaled(wrapped, channels)] + t[k..];
      } else {
        assert output[..] == s[at..at + k] + old(output[k..]);
      }
    }

    /** Appends the longest prefix that fits. */
    method Write(input: array<real>, sampleFrames: nat)
      requires Valid() && Scaled(sampleFrames, channels) <= input.Length && input != buffer
      modifies this, buffer
      ensures Valid() && buffer == old(buffer) && bufferFrames == old(bufferFrames) && channels == old(channels)
      ensures handedOut == old(handedOut)
      ensures buffer == null ==> Samples() == old(Samples()) && accepted == old(accepted)
      ensures buffer != null ==>
                var taken := Min(sampleFrames, bufferFrames - old(framesUsed));
                && Scaled(taken, channels) <= input.Length
                && framesUsed == old(framesUsed) + taken
                && Samples() == old(Samples()) + input[..Scaled(taken, channels)]
                && accepted == old(accepted) + input[..Scaled(taken, channels)]
    {
      hide Scaled, Stretch, Overwritten;
      if buffer != null {
        var frames := sampleFrames;
        if framesUsed + frames > bufferFrames {
          var overrun := framesUsed + frames - bufferFrames;
          frames := frames - overrun;
        }
        var writePos := readPos + framesUsed;
        if writePos >= bufferFrames {
          writePos := writePos - bufferFrames;
        }
        WritePosition();
        ScaledMonotonic(frames, sampleFrames, channels);
        ScaledSum(framesUsed, frames, channels);
        ScaledMonotonic(framesUsed + frames, bufferFrames, channels);
        ghost var s, x := buffer[..], input[..Scaled(frames, channels)];
        WriteBehind(s, Scaled(readPos, channels), Scaled(framesUsed, channels), x);
        Associative(handedOut, Samples(), x);
        WriteAt(input, writePos, frames);
        framesUsed := framesUsed + frames;
        accepted := accepted + x;
      }
    }

    /** Copies the oldest frames to the output, and puts silence in place of those that are missing. */
    method Fill(output: array<real>, sampleFrames: nat) returns (frames: nat)
      requires Valid() && buffer != null && Scaled(sampleFrames, channels) <= output.Length && output != buffer
      modifies output
      ensures frames == Min(sampleFrames, framesUsed)
      ensures Scaled(frames, channels) <= Scaled(sampleFrames, channels) && Scaled(frames, channels) <= buffer.Length
      ensures output[..Scaled(frames, channels)] == Stretch(buffer[..], Scaled(readPos, channels), Scaled(frames, channels))
      ensures forall i :: Scaled(frames, channels) <= i < Scaled(sampleFrames, channels) ==> output[i] == 0.0
      ensures output[Scaled(sampleFrames, channels)..] == old(output[Scaled(sampleFrames, channels)..])
    {
      hide Scaled, Stretch;
      frames := sampleFrames;
      ScaledMonotonic(Min(sampleFrames, framesUsed), sampleFrames, channels);
      ScaledMonotonic(Min(sampleFrames, framesUsed), framesUsed, channels);
      if frames > framesUsed {
        var underrun := frames - framesUsed;
        ScaledMonotonic(framesUsed, frames, channels);
        Zero(output, Scaled(framesUsed, channels), Scaled(underrun, channels));
        frames := framesUsed;
      }
      ReadAt(output, frames);
    }

    /** Hands out the oldest frames, and silence for those that are missing. */
    method Read(output: array<real>, sampleFrames: nat)
      requires Valid() && buffer != null && Scaled(sampleFrames, channels) <= output.Length && output != buffer
      modifies this, output
      ensures Valid() && buffer == old(buffer) && bufferFrames == old(bufferFrames) && channels == old(channels)
      ensures var taken := Min(sampleFrames, old(framesUsed));
              && Scaled(taken, channels) <= Scaled(sampleFrames, channels)
              && framesUsed == old(framesUsed) - taken
              && output[..Scaled(taken, channels)] + Samples() == old(Samples())
              && handedOut == old(handedOut) + output[..Scaled(taken, channels)] && accepted == old(accepted)
              && (forall i :: Scaled(taken, channels) <= i < Scaled(sampleFrames, channels) ==> output[i] == 0.0)
              && output[Scaled(sampleFrames, channels)..] == old(output[Scaled(sampleFrames, channels)..])
    {
      hide Scaled, Stretch;
      var frames := Fill(output, sampleFrames);
      ghost var s, k, waiting := buffer[..], Scaled(frames, channels), Samples();
      ReadPosition(frames);
      ReadAhead(s, Scaled(readPos, channels), Scaled(framesUsed, channels), k);
      ghost var taken := output[..k];
      ghost var rest := Stretch(s, Wrapped(Scaled(readPos, channels) + k, |s|), Scaled(framesUsed, channels) - k);
      Associative(handedOut, taken, rest);
      assert taken + rest == waiting && handedOut + waiting == accepted;
      handedOut := handedOut + taken;
      framesUsed := framesUsed - frames;
      readPos := readPos + frames;
      if readPos >= bufferFrames {
        readPos := readPos - bufferFrames;
      }
      assert Samples() == rest;
    }

    lemma ReadPosition(frames: nat)
      requires Valid() && buffer != null && frames <= framesUsed
      ensures var next := if readPos + frames >= bufferFrames then readPos + frames - bufferFrames else readPos + frames;
              var there := Scaled(readPos, channels) + Scaled(frames, channels);
              && next < bufferFrames && Scaled(next, channels) < buffer.Length
              && Scaled(next, channels) == (if there >= buffer.Length then there - buffer.Length else there)
              && Scaled(frames, channels) <= Scaled(framesUsed, channels) <= buffer.Length
              && Scaled(framesUsed - frames, channels) == Scaled(framesUsed, channels) - Scaled(frames, channels)
    {
      var next := Wrapped(readPos + frames, bufferFrames);
      SampleCounts(readPos, frames, bufferFrames, channels);
      ScaledMonotonic(frames, framesUsed, channels);
      ScaledMonotonic(next + 1, bufferFrames, channels);
      ScaledSum(next, 1, channels);
      ScaledSum(readPos, frames, channels);
      if readPos + frames >= bufferFrames {
        ScaledMonotonic(bufferFrames, readPos + frames, channels);
      } else {
        ScaledMonotonic(readPos + frames, bufferFrames, channels);
        ScaledMonotonic(readPos + frames + 1, bufferFrames, channels);
        ScaledSum(readPos + frames, 1, channels);
      }
    }
  }
}
