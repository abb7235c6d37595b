/** Running a build with capped output: each stream is kept up to a byte cap, before the
    deadline and during the drain that follows a timeout. */
module BuildRunner {
  import opened Common
  import opened Text
  import opened CommandRunner

  const BYTE_CAP: nat := MAX_CAPTURE_CHARS * 4

  datatype ByteChunk = ByteChunk(stream: Stream, data: seq<Byte>)

  // Everything a stream delivered.
  function BytesOf(chunks: seq<ByteChunk>, stream: Stream): seq<Byte> {
    if chunks == [] then []
    else
      var last := chunks[|chunks| - 1];
      BytesOf(chunks[..|chunks| - 1], stream) + if last.stream == stream then last.data else []
  }

  // `truncate_text`
  function Truncated(text: string): string {
    if |text| <= MAX_CAPTURE_CHARS then text else text[..MAX_CAPTURE_CHARS] + SUFFIX
  }

  // One read: the buffer takes what still fits.
  method Take(buf: seq<Byte>, chunk: seq<Byte>, ghost all: seq<Byte>) returns (buf': seq<Byte>)
    requires buf == FirstN(all, BYTE_CAP)
    ensures buf' == FirstN(all + chunk, BYTE_CAP)
  {
    buf' := buf;
    if |buf| < BYTE_CAP {
      var take := if |chunk| < BYTE_CAP - |buf| then |chunk| else BYTE_CAP - |buf|;
      buf' := buf + chunk[..take];
    }
  }

  lemma BytesNext(earlier: seq<ByteChunk>, chunks: seq<ByteChunk>, i: nat)
    requires i < |chunks|
    ensures var seen := earlier + chunks[..i];
            forall stream :: BytesOf(earlier + chunks[..i + 1], stream)
                          == BytesOf(seen, stream) + if chunks[i].stream == stream then chunks[i].data else []
  {
    var seen := earlier + chunks[..i];
    assert (earlier + chunks[..i + 1])[..|seen|] == seen;
  }

  method Absorb(chunks: seq<ByteChunk>, outBuf0: seq<Byte>, errBuf0: seq<Byte>, ghost earlier: seq<ByteChunk>)
    returns (outBuf: seq<Byte>, errBuf: seq<Byte>)
    requires outBuf0 == FirstN(BytesOf(earlier, Stdout), BYTE_CAP)
    requires errBuf0 == FirstN(BytesOf(earlier, Stderr), BYTE_CAP)
    ensures outBuf == FirstN(BytesOf(earlier + chunks, Stdout), BYTE_CAP)
    ensures errBuf == FirstN(BytesOf(earlier + chunks, Stderr), BYTE_CAP)
  {
    hide BytesOf;
    outBuf, errBuf := outBuf0, errBuf0;
    assert earlier + chunks[..0] == earlier;
    for i := 0 to |chunks|
      invariant outBuf == FirstN(BytesOf(earlier + chunks[..i], Stdout), BYTE_CAP)
      invariant errBuf == FirstN(BytesOf(earlier + chunks[..i], Stderr), BYTE_CAP)
    {
      ghost var seen := earlier + chunks[..i];
      BytesNext(earlier, chunks, i);
      if chunks[i].stream == Stdout {
        outBuf := Take(outBuf, chunks[i].data, BytesOf(seen, Stdout));
      } else {
        errBuf := Take(errBuf, chunks[i].data, BytesOf(seen, Stderr));
      }
    }
    assert chunks[..|chunks|] == chunks;
  }

  // What a run that started returns; `late` for one the deadline cut off.
  datatype Capture = Capture(rc: Option<int>, stdout: string, stderr: string, late: bool)

  datatype BuildError = OSError

  // `drained` arrives after the deadline and is read only if the deadline passed; `decode`
  // stands for the byte decoder.
  method RunWithLimitedOutput(starts: bool, chunks: seq<ByteChunk>, timedOut: bool, drained: seq<ByteChunk>,
                              exitCode: Option<int>, decode: seq<Byte> -> string)
    returns (r: Result<Capture, BuildError>)
    ensures r.Err? <==> !starts
    ensures r.Ok? ==> r.value.late == timedOut && r.value.rc == if timedOut then None else exitCode
    ensures r.Ok? ==>
              var all := chunks + if timedOut then drained else [];
              var out, err := decode(FirstN(BytesOf(all, Stdout), BYTE_CAP)), decode(FirstN(BytesOf(all, Stderr), BYTE_CAP));
              && r.value.stdout == Captured(out, |out| > MAX_CAPTURE_CHARS)
              && r.value.stderr == Captured(err, |err| > MAX_CAPTURE_CHARS)
  {
    if !starts {
      return Err(OSError);
    }
    assert [] + chunks == chunks;
    var outBuf, errBuf := Absorb(chunks, [], [], []);
    assert chunks + [] == chunks;
    if timedOut {
      outBuf, errBuf := Absorb(drained, outBuf, errBuf, chunks);
      return Ok(Capture(None, Truncated(decode(outBuf)), Truncated(decode(errBuf)), true));
    }
    return Ok(Capture(exitCode, Truncated(decode(outBuf)), Truncated(decode(errBuf)), false));
  }
}
