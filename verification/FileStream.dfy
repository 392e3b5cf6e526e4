/** A stream buffer over a C file: one byte buffer that serves as get area when the file is read
    and as put area when it is written. A stream is used in one direction only. */
module FileStream {
  newtype byte = x: int | 0 <= x < 256

  const EOF: int := -1

  /** A character, the end of the file, or an access outside the buffer. */
  datatype Fill = Available(c: byte) | AtEof | OutOfBounds

  function Max(a: nat, b: nat): nat {
    if a < b then b else a
  }

  function Min(a: nat, b: nat): nat {
    if a < b then a else b
  }

  lemma MinMaxBound(a: nat, b: nat)
    ensures Min(a, b) <= a <= Max(a, b) && Min(a, b) <= b <= Max(a, b) && Min(a, b) + Max(a, b) == a + b
  {
  }

  class FILEstream {
    const put_back_: nat
    const buffer_: array<byte>

    // The file, when it is read: all of its bytes, and how many of them fread has returned.
    const input: seq<byte>
    var filePos: nat

    // The get area: buffer positions.
    var eback: nat
    var gptr: nat
    var egptr: nat

    // The put area starts at position 0.
    var pptr: nat
    var epptr: nat

    // The file, when it is written.
    var output: seq<byte>

    ghost var delivered: seq<byte>  // the characters read from the stream
    ghost var sawEof: bool          // a fill has returned nothing
    ghost var put: seq<byte>        // the characters put into the stream
    ghost var lost: bool            // a flush was short

    constructor (file: seq<byte>, buff_sz: nat, put_back: nat)
      ensures put_back_ == Max(put_back, 1) && buffer_.Length == Max(buff_sz, put_back_) + put_back_
      ensures fresh(buffer_) && input == file
      ensures ReadMode() && delivered == [] && !sawEof && filePos == 0 && !Filled()
      ensures WriteMode() && put == [] && output == [] && !lost
    {
      put_back_ := Max(put_back, 1);
      var size := Max(buff_sz, Max(put_back, 1)) + Max(put_back, 1);
      buffer_ := new byte[size](_ => 0);
      input, filePos, output := file, 0, [];
      eback, gptr, egptr := size, size, size;
      pptr, epptr := 0, size - 1;
      delivered, sawEof, put, lost := [], false, [], false;
    }

    predicate Sized() {
      1 <= put_back_ && 2 * put_back_ <= buffer_.Length
    }

    // ---------- reading ----------

    /** The get area has been filled at least once. */
    predicate Filled()
      reads this
    {
      eback == 0
    }

    ghost predicate ReadMode()
      reads this, buffer_
    {
      && Sized()
      && eback <= gptr <= egptr <= buffer_.Length
      && egptr - gptr <= filePos <= |input|
      && (!Filled() ==> eback == buffer_.Length && filePos == 0)
      // What has been delivered, then what is in the get area, is what fread has returned.
      && delivered == input[..filePos - (egptr - gptr)]
      && Holds(gptr)
      // Up to the end of the file, the whole buffer before egptr holds the last bytes returned.
      && (Filled() && !sawEof ==> egptr <= filePos && Holds(0))
    }

    /** From position `lo` to egptr the buffer holds the last bytes that fread returned. */
    ghost predicate Holds(lo: nat)
      requires lo <= egptr <= buffer_.Length && egptr - lo <= filePos <= |input|
      reads this, buffer_
    {
      forall k :: lo <= k < egptr ==> buffer_[k] == input[filePos - egptr + k]
    }

    /** The next refill has enough bytes before egptr to keep for putting back. */
    predicate CanRefill()
      reads this
    {
      Filled() ==> put_back_ <= egptr
    }

    /** Makes the next character available. fread returns at most `granted` bytes. */
    method Underflow(granted: nat) returns (r: Fill)
      requires ReadMode()
      modifies this`filePos, this`eback, this`gptr, this`egptr, this`sawEof, buffer_
      ensures r.OutOfBounds? <==> old(gptr == egptr && !CanRefill())
      ensures !r.OutOfBounds? ==> ReadMode()
      ensures r.Available? ==> gptr < egptr && r.c == buffer_[gptr] && |delivered| < |input| && r.c == input[|delivered|]
      ensures old(gptr < egptr) ==> r.Available? && gptr == old(gptr) && egptr == old(egptr) && eback == old(eback) && sawEof == old(sawEof)
      ensures !r.Available? ==> gptr == old(gptr) == egptr == old(egptr) && eback == old(eback) && filePos == old(filePos)
      ensures r.AtEof? ==> sawEof
      ensures r.AtEof? && granted > 0 ==> delivered == input
      ensures old(gptr == egptr) && r.Available? ==>
                && Filled() && sawEof == old(sawEof)
                && gptr == (if old(Filled()) then put_back_ else 0)
                && (!old(sawEof) && old(Filled()) ==>
                      |delivered| >= put_back_
                      && forall k :: gptr - put_back_ <= k < gptr ==> buffer_[k] == delivered[|delivered| - gptr + k])
                && (old(Filled()) ==> CanRefill())
                && (!old(Filled()) ==> egptr == Min(granted, Min(buffer_.Length, |input|)))
    {
      if gptr < egptr {
        return Available(buffer_[gptr]);
      }
      if eback == 0 && egptr < put_back_ {
        return OutOfBounds;
      }
      var start := if eback == 0 then put_back_ else 0;
      if eback == 0 {
        Memmove(egptr - put_back_, put_back_);
      }
      var n := FillFrom(start, granted);
      return if n == 0 then AtEof else Available(buffer_[gptr]);
    }

    /** Fills the buffer from position `start` on, behind the characters kept for putting back. */
    method FillFrom(start: nat, granted: nat) returns (n: nat)
      requires Sized() && start < buffer_.Length && filePos <= |input| && delivered == input[..filePos]
      requires gptr == egptr && eback <= gptr <= buffer_.Length
      requires !Filled() ==> start == 0 && eback == buffer_.Length && filePos == 0
      requires !sawEof ==> start <= filePos && forall k :: 0 <= k < start ==> buffer_[k] == input[filePos - start + k]
      modifies this`filePos, this`eback, this`gptr, this`egptr, this`sawEof, buffer_
      ensures ReadMode() && n == Min(granted, Min(buffer_.Length - start, |input| - old(filePos)))
      ensures filePos == old(filePos) + n && sawEof == (old(sawEof) || n == 0)
      ensures if n == 0 then gptr == old(gptr) && egptr == old(egptr) && eback == old(eback)
              else gptr == start && egptr == start + n && eback == 0
      ensures forall k :: 0 <= k < start ==> buffer_[k] == old(buffer_[k])
    {
      n := Min(granted, Min(buffer_.Length - start, |input| - filePos));
      Fread(start, n);
      if n == 0 {
        sawEof := true;
      } else {
        filePos := filePos + n;
        eback, gptr, egptr := 0, start, start + n;
      }
    }

    /** Copies `n` bytes to the start of the buffer; the two ranges may overlap. */
    method Memmove(from: nat, n: nat)
      requires from + n <= buffer_.Length
      modifies buffer_
      ensures forall k :: 0 <= k < n ==> buffer_[k] == old(buffer_[from + k])
    {
      forall k | 0 <= k < n {
        buffer_[k] := buffer_[from + k];
      }
    }

    /** Stores the next `n` bytes of the file at `start`. */
    method Fread(start: nat, n: nat)
      requires start + n <= buffer_.Length && filePos + n <= |input|
      modifies buffer_
      ensures forall k :: start <= k < start + n ==> buffer_[k] == input[filePos - start + k]
      ensures forall k :: 0 <= k < start ==> buffer_[k] == old(buffer_[k])
    {
      forall k | 0 <= k < n {
        buffer_[start + k] := input[filePos + k];
      }
    }

    /** Reads one character, refilling if needed. */
    method Sbumpc(granted: nat) returns (r: Fill)
      requires ReadMode()
      modifies this`filePos, this`eback, this`gptr, this`egptr, this`sawEof, this`delivered, buffer_
      ensures r.OutOfBounds? <==> old(gptr == egptr && !CanRefill())
      ensures !r.OutOfBounds? ==> ReadMode()
      ensures delivered == old(delivered) + (if r.Available? then [r.c] else [])
      ensures r.AtEof? && granted > 0 ==> delivered == input
      ensures !r.Available? ==> old(gptr == egptr) && (Filled() <==> old(Filled())) && CanRefill() == old(CanRefill())
      ensures r.Available? ==> Filled()
      ensures r.Available? && old(gptr < egptr) ==> gptr == old(gptr) + 1 && egptr == old(egptr)
      ensures r.Available? && old(gptr == egptr && Filled()) ==> CanRefill()
      ensures !old(Filled()) ==>
                var first := Min(granted, Min(buffer_.Length, |input|));
                (r.AtEof? <==> first == 0) && (r.Available? ==> gptr == 1 && egptr == first)
    {
      r := Underflow(granted);
      if r.Available? {
        gptr := gptr + 1;
        delivered := delivered + [r.c];
      }
    }

    /** Steps back over the last character read, as long as the get area reaches back that far. */
    method Sungetc() returns (c: int)
      requires ReadMode() && !sawEof
      modifies this`gptr, this`delivered
      ensures ReadMode()
      ensures c == EOF <==> old(gptr == eback)
      ensures c != EOF ==> |old(delivered)| > 0 && c == old(delivered)[|old(delivered)| - 1] as int
                           && delivered == old(delivered)[..|old(delivered)| - 1] && gptr == old(gptr) - 1
      ensures c == EOF ==> delivered == old(delivered) && gptr == old(gptr)
    {
      if gptr == eback {
        return EOF;
      }
      gptr := gptr - 1;
      delivered := delivered[..|delivered| - 1];
      return buffer_[gptr] as int;
    }

    // ---------- writing ----------

    /** The characters put but not yet flushed. */
    ghost function Pending(): seq<byte>
      requires pptr <= buffer_.Length
      reads this, buffer_
    {
      buffer_[..pptr]
    }

    ghost predicate WriteMode()
      reads this, buffer_
    {
      && Sized()
      && pptr <= epptr == buffer_.Length - 1
      // Nothing is lost iff file and put area together hold what was put.
      && (if lost then |output| + pptr < |put| else output + Pending() == put)
    }

    /** Flushes the put area. fwrite accepts at most `accepted` bytes. */
    method Sync(accepted: nat) returns (r: int)
      requires WriteMode()
      modifies this`output, this`pptr, this`epptr, this`lost
      ensures WriteMode() && pptr == 0
      ensures output == old(output) + old(Pending())[..Min(accepted, old(pptr))]
      ensures r == (if accepted < old(pptr) then -1 else 0)
      ensures lost == (old(lost) || accepted < old(pptr))
    {
      var count := pptr;
      var n := Min(accepted, count);
      output := output + buffer_[..n];
      pptr, epptr := 0, buffer_.Length - 1;
      lost := lost || n != count;
      return if n != count then -1 else 0;
    }

    /** Called when the put area is full, or with EOF to flush it. The result of the flush is not looked at. */
    method Overflow(ch: int, accepted: nat) returns (r: int)
      requires WriteMode() && (ch == EOF || 0 <= ch < 256)
      modifies this`output, this`pptr, this`epptr, this`lost, this`put, buffer_
      ensures WriteMode() && r == ch
      ensures output == old(output) + old(Pending())[..Min(accepted, old(pptr))]
      ensures Pending() == if ch == EOF then [] else [ch as byte]
      ensures put == old(put) + Pending()
      ensures lost == (old(lost) || accepted < old(pptr))
    {
      var _ := Sync(accepted);
      if ch != EOF {
        buffer_[pptr] := ch as byte;
        pptr := pptr + 1;
        put := put + [ch as byte];
      }
      return ch;
    }

    /** Writes one character. */
    method Sputc(c: byte, accepted: nat) returns (r: int)
      requires WriteMode()
      modifies this`output, this`pptr, this`epptr, this`lost, this`put, buffer_
      ensures WriteMode() && r == c as int
      ensures put == old(put) + [c]
      ensures if old(pptr < epptr) then output == old(output) && Pending() == old(Pending()) + [c]
              else output == old(output) + old(Pending())[..Min(accepted, old(pptr))] && Pending() == [c]
      ensures lost == (old(lost) || (old(pptr == epptr) && accepted < old(pptr)))
    {
      if pptr < epptr {
        buffer_[pptr] := c;
        pptr := pptr + 1;
        put := put + [c];
        r := c as int;
      } else {
        r := Overflow(c as int, accepted);
      }
    }
  }

  // ---------- clients: any interleaving of operations ----------

  /** Reads until the end of the file, with any pattern of fread results. The characters delivered are the file's, in order.
      The buffer is left exactly if the first fill is not empty but shorter than the put-back area, and is read to its end. */
  method ReadAll(s: FILEstream, grants: seq<nat>) returns (r: Fill)
    requires s.ReadMode() && !s.Filled() && s.delivered == []
    modifies s, s.buffer_
    ensures s.delivered <= s.input
    ensures r.AtEof? && (forall g :: g in grants ==> g > 0) ==> s.delivered == s.input
    ensures r.OutOfBounds? <==>
              grants != [] && var first := Min(grants[0], |s.input|); 0 < first < s.put_back_ && first < |grants|
  {
    for i := 0 to |grants|
      invariant s.ReadMode()
      invariant i == 0 ==> !s.Filled()
      invariant i > 0 ==> s.Filled()
      invariant i > 0 ==> 0 < Min(grants[0], |s.input|)
      invariant i > 0 && Min(grants[0], |s.input|) >= s.put_back_ ==> s.CanRefill()
      invariant i > 0 && Min(grants[0], |s.input|) < s.put_back_ ==> s.gptr == i <= s.egptr == Min(grants[0], |s.input|)
    {
      assert grants[i] in grants;
      r := s.Sbumpc(grants[i]);
      if !r.Available? {
        return;
      }
    }
    r := Available(0);
  }

  datatype WriteOp = Putc(c: byte) | Flush | Synchronize

  function PutBy(ops: seq<WriteOp>): seq<byte> {
    if ops == [] then []
    else PutBy(ops[..|ops| - 1]) + (if ops[|ops| - 1].Putc? then [ops[|ops| - 1].c] else [])
  }

  /** Any interleaving of puts, flushes and syncs: what is in the file and in the put area is what was put,
      unless some fwrite was short, and then it never is again. */
  method WriteOps(s: FILEstream, ops: seq<WriteOp>, accepted: seq<nat>)
    requires s.WriteMode() && s.put == [] && !s.lost && |accepted| == |ops|
    modifies s, s.buffer_
    ensures s.WriteMode() && s.put == PutBy(ops)
    ensures s.output + s.Pending() == s.put <==> !s.lost
    ensures (forall a :: a in accepted ==> a >= s.buffer_.Length) ==> !s.lost
  {
    for i := 0 to |ops|
      invariant s.WriteMode() && s.put == PutBy(ops[..i])
      invariant (forall a :: a in accepted ==> a >= s.buffer_.Length) ==> !s.lost
    {
      assert ops[..i + 1][..i] == ops[..i];
      assert accepted[i] in accepted;
      match ops[i] {
        case Putc(c) =>
          var _ := s.Sputc(c, accepted[i]);
        case Flush =>
          var _ := s.Overflow(EOF, accepted[i]);
        case Synchronize =>
          var _ := s.Sync(accepted[i]);
      }
    }
    assert ops[..|ops|] == ops;
  }
}
