/** Running a preparation command: both output streams arrive in chunks, in any
    interleaving, and are consumed with bounded memory. The chunks are decoded text; the
    process, the clock and the decoder are outside the model. */
module CommandRunner {
  import opened Common
  import opened Text

  const MAX_CAPTURE_CHARS: nat := 32768
  const SUFFIX := "..."

  datatype Stream = Stdout | Stderr

  datatype Chunk = Chunk(stream: Stream, text: string)

  // Everything a stream delivered.
  function TextsOf(chunks: seq<Chunk>, stream: Stream): seq<string> {
    if chunks == [] then []
    else
      var last := chunks[|chunks| - 1];
      TextsOf(chunks[..|chunks| - 1], stream) + if last.stream == stream then [last.text] else []
  }

  function OutputOf(chunks: seq<Chunk>, stream: Stream): string {
    Join(TextsOf(chunks, stream))
  }

  // ------------------------------------------------ bounded capture

  // A chunk arrived that did not fit, or arrived when the buffer was full.
  ghost predicate Overflowed(texts: seq<string>) {
    exists i :: DropsAt(texts, i)
  }

  ghost predicate DropsAt(texts: seq<string>, i: int) {
    0 <= i < |texts| && (|Join(texts[..i])| >= MAX_CAPTURE_CHARS || |Join(texts[..i + 1])| > MAX_CAPTURE_CHARS)
  }

  // A chunk that decoded to nothing arrived when the buffer was full.
  ghost predicate EmptyAtLimit(texts: seq<string>) {
    exists i :: 0 <= i < |texts| && texts[i] == "" && |Join(texts[..i])| >= MAX_CAPTURE_CHARS
  }

  function Captured(output: string, overflowed: bool): string {
    FirstN(output, MAX_CAPTURE_CHARS) + if overflowed then SUFFIX else ""
  }

  // The captured text: the whole output, or as much of its beginning as the limit allows, and
  // the suffix exactly after an overflow.
  lemma CapturedIs(output: string, overflowed: bool)
    ensures var kept := Captured(output, overflowed);
            var n := |kept| - if overflowed then |SUFFIX| else 0;
            && n == (if |output| <= MAX_CAPTURE_CHARS then |output| else MAX_CAPTURE_CHARS)
            && kept[..n] == output[..n] && kept[n..] == if overflowed then "..." else ""
  {
  }

  lemma {:induction false} JoinGrows(texts: seq<string>, i: nat)
    requires i <= |texts|
    ensures |Join(texts[..i])| <= |Join(texts)|
  {
    if i < |texts| {
      JoinGrows(texts[..|texts| - 1], i);
      assert texts[..|texts| - 1][..i] == texts[..i];
    } else {
      assert texts[..i] == texts;
    }
  }

  // The flag is raised exactly when something was dropped or an empty chunk met a full buffer.
  lemma OverflowedIff(texts: seq<string>)
    ensures Overflowed(texts) <==> |Join(texts)| > MAX_CAPTURE_CHARS || EmptyAtLimit(texts)
  {
    if i :| DropsAt(texts, i) {
      JoinNext(texts, i);
      JoinGrows(texts, i + 1);
    }
    if i :| 0 <= i < |texts| && texts[i] == "" && |Join(texts[..i])| >= MAX_CAPTURE_CHARS {
      assert DropsAt(texts, i);
    }
    if |Join(texts)| > MAX_CAPTURE_CHARS {
      assert texts[..|texts| - 1 + 1] == texts;
      assert DropsAt(texts, |texts| - 1);
    }
  }

  lemma JoinNext(texts: seq<string>, i: nat)
    requires i < |texts|
    ensures Join(texts[..i + 1]) == Join(texts[..i]) + texts[i]
  {
    assert texts[..i + 1] == texts[..i] + [texts[i]];
    JoinAppend(texts[..i], texts[i]);
  }

  lemma OverflowedNext(texts: seq<string>, text: string)
    ensures Overflowed(texts + [text])
       <==> Overflowed(texts) || |Join(texts)| >= MAX_CAPTURE_CHARS || |Join(texts)| + |text| > MAX_CAPTURE_CHARS
  {
    var all := texts + [text];
    var n := |texts|;
    JoinAppend(texts, text);
    assert all[..n] == texts && all[..n + 1] == all;
    assert DropsAt(all, n) <==> |Join(texts)| >= MAX_CAPTURE_CHARS || |Join(texts)| + |text| > MAX_CAPTURE_CHARS;
    forall i | 0 <= i < n ensures DropsAt(all, i) <==> DropsAt(texts, i) {
      assert all[..i] == texts[..i] && all[..i + 1] == texts[..i + 1];
    }
  }

  // `_append_bounded`: the buffer's parts grow by what still fits.
  method AppendBounded(parts: seq<string>, curLen: nat, text: string)
    returns (parts': seq<string>, newLen: nat, overflowed: bool)
    requires curLen == |Join(parts)| <= MAX_CAPTURE_CHARS
    ensures newLen == |Join(parts')| <= MAX_CAPTURE_CHARS
    ensures Join(parts') == FirstN(Join(parts) + text, MAX_CAPTURE_CHARS)
    ensures overflowed <==> curLen >= MAX_CAPTURE_CHARS || curLen + |text| > MAX_CAPTURE_CHARS
  {
    if curLen >= MAX_CAPTURE_CHARS {
      return parts, curLen, true;
    }
    var remaining := MAX_CAPTURE_CHARS - curLen;
    if |text| <= remaining {
      JoinAppend(parts, text);
      return parts + [text], curLen + |text|, false;
    }
    JoinAppend(parts, text[..remaining]);
    return parts + [text[..remaining]], MAX_CAPTURE_CHARS, true;
  }

  // ------------------------------------------------ signature search

  // A signature that is blank counts as none.
  function Signature(signature: Option<string>): (sig: Option<string>)
    ensures sig.Some? ==> sig.value != ""
  {
    if signature.Some? && Strip(signature.value) != "" then signature else None
  }

  // The given signature has to be found exactly if some character of it is not a space.
  predicate Demanded(signature: Option<string>) {
    signature.Some? && exists i :: 0 <= i < |signature.value| && !IsSpace(signature.value[i])
  }

  lemma SignatureIff(signature: Option<string>)
    ensures Signature(signature) == if Demanded(signature) then signature else None
  {
    if signature.Some? {
      var _, _ := StripIs(signature.value);
    }
  }

  // One stream's flag and tail after one more chunk.
  method Search(sig: Option<string>, k: nat, found: bool, tail: string, text: string, ghost before: string)
    returns (found': bool, tail': string)
    requires sig.Some? ==> sig.value != "" && k == |sig.value| - 1
    requires found <==> sig.None? || Contains(before, sig.value)
    requires !found ==> tail == LastN(before, k)
    ensures found' <==> sig.None? || Contains(before + text, sig.value)
    ensures !found' ==> tail' == LastN(before + text, k)
  {
    found', tail' := found, tail;
    if sig.Some? {
      ContainsConcat(before, text, sig.value);
      if !found {
        var hay := tail + text;
        if Contains(hay, sig.value) {
          found' := true;
        }
        tail' := if k > 0 then LastN(hay, k) else "";
        TailRolls(before, text, k);
      }
    }
  }

  // ------------------------------------------------ the run

  datatype Reason = InvalidEnv | CannotStart | TimedOut | ExitCode | SignatureNotFound

  datatype CheckResult =
    | Success(stdout: string, stderr: string, returncode: Option<int>)
    | Failure(reason: Reason, stdout: string, stderr: string, returncode: Option<int>)

  // What happens outside: whether the process starts, what it prints, whether the deadline
  // passes before both streams close, and the exit code if it was collected.
  datatype World = World(starts: bool, osError: string, chunks: seq<Chunk>, timedOut: bool, returncode: Option<int>)

  predicate ValidEnv(envOverrides: seq<(string, string)>) {
    forall i :: 0 <= i < |envOverrides| ==> envOverrides[i].0 != ""
  }

  // The signature, if one is demanded, is a substring of both outputs in full.
  predicate Matches(signature: Option<string>, w: World) {
    Demanded(signature)
    ==> Contains(OutputOf(w.chunks, Stdout) + "\n" + OutputOf(w.chunks, Stderr), signature.value)
  }

  // The six results in the order the code tests for them; each holds exactly when the tests
  // before it do not. An exit code that was never collected is not 0.
  method RunCommand(envOverrides: seq<(string, string)>, signature: Option<string>, w: World)
    returns (r: CheckResult)
    ensures r.Failure? && r.reason == InvalidEnv <==> !ValidEnv(envOverrides)
    ensures r.Failure? && r.reason == CannotStart <==> ValidEnv(envOverrides) && !w.starts
    ensures r.Failure? && r.reason == TimedOut <==> ValidEnv(envOverrides) && w.starts && w.timedOut
    ensures r.Failure? && r.reason == ExitCode
       <==> ValidEnv(envOverrides) && w.starts && !w.timedOut && w.returncode != Some(0)
    ensures r.Failure? && r.reason == SignatureNotFound
       <==> ValidEnv(envOverrides) && w.starts && !w.timedOut && w.returncode == Some(0) && !Matches(signature, w)
    ensures r.Success?
       <==> ValidEnv(envOverrides) && w.starts && !w.timedOut && w.returncode == Some(0) && Matches(signature, w)
    ensures r.returncode == if ValidEnv(envOverrides) && w.starts && !w.timedOut then w.returncode else None
    ensures !ValidEnv(envOverrides) ==> r.stdout == "" && r.stderr == ""
    ensures ValidEnv(envOverrides) && !w.starts ==> r.stdout == "" && r.stderr == w.osError
    ensures ValidEnv(envOverrides) && w.starts
        ==> && r.stdout == Captured(OutputOf(w.chunks, Stdout), Overflowed(TextsOf(w.chunks, Stdout)))
            && r.stderr == Captured(OutputOf(w.chunks, Stderr), Overflowed(TextsOf(w.chunks, Stderr)))
  {
    for i := 0 to |envOverrides|
      invariant forall j :: 0 <= j < i ==> envOverrides[j].0 != ""
    {
      if envOverrides[i].0 == "" {
        return Failure(InvalidEnv, "", "", None);
      }
    }
    if !w.starts {
      return Failure(CannotStart, "", w.osError, None);
    }
    var sig := Signature(signature);
    SignatureIff(signature);
    var k := if sig.None? then 0 else |sig.value| - 1;
    var stdout, stderr, found, boundary := Consume(sig, k, w.chunks);
    if w.timedOut {
      return Failure(TimedOut, stdout, stderr, None);
    }
    if w.returncode != Some(0) {
      return Failure(ExitCode, stdout, stderr, w.returncode);
    }
    if sig.Some? {
      ContainsAcross(OutputOf(w.chunks, Stdout), '\n', OutputOf(w.chunks, Stderr), sig.value);
      if !found {
        if !Contains(boundary, sig.value) {
          return Failure(SignatureNotFound, stdout, stderr, w.returncode);
        }
      }
    }
    return Success(stdout, stderr, w.returncode);
  }

  // What the loop keeps for one stream: the captured parts and their length, the overflow
  // flag, whether the signature was found, and the tail a match may still begin in.
  datatype Monitor = Monitor(parts: seq<string>, len: nat, overflow: bool, found: bool, tail: string)

  ghost predicate Tracks(m: Monitor, sig: Option<string>, k: nat, texts: seq<string>) {
    && m.len == |Join(m.parts)| <= MAX_CAPTURE_CHARS
    && Join(m.parts) == FirstN(Join(texts), MAX_CAPTURE_CHARS)
    && (m.overflow <==> Overflowed(texts))
    && (m.found <==> sig.None? || Contains(Join(texts), sig.value))
    && (!m.found ==> m.tail == LastN(Join(texts), k))
  }

  method Feed(m: Monitor, sig: Option<string>, k: nat, text: string, ghost texts: seq<string>)
    returns (m': Monitor)
    requires sig.Some? ==> sig.value != "" && k == |sig.value| - 1
    requires Tracks(m, sig, k, texts)
    ensures Tracks(m', sig, k, texts + [text])
  {
    hide Contains, Overflowed;
    OverflowedNext(texts, text);
    JoinAppend(texts, text);
    FirstNTwice(Join(texts), text);
    var parts, len, over := AppendBounded(m.parts, m.len, text);
    var found, tail := Search(sig, k, m.found, m.tail, text, Join(texts));
    m' := Monitor(parts, len, m.overflow || over, found, tail);
  }

  // The read loop: for every interleaving it ends with the bounded capture of each stream,
  // whether the signature lies within a stream, and the text around the streams' joint.
  method Consume(sig: Option<string>, k: nat, chunks: seq<Chunk>)
    returns (stdout: string, stderr: string, found: bool, boundary: string)
    requires sig.Some? ==> sig.value != "" && k == |sig.value| - 1
    ensures stdout == Captured(OutputOf(chunks, Stdout), Overflowed(TextsOf(chunks, Stdout)))
    ensures stderr == Captured(OutputOf(chunks, Stderr), Overflowed(TextsOf(chunks, Stderr)))
    ensures found <==> sig.None? || Contains(OutputOf(chunks, Stdout), sig.value)
                                 || Contains(OutputOf(chunks, Stderr), sig.value)
    ensures !found ==> boundary == LastN(OutputOf(chunks, Stdout), k) + "\n" + FirstN(OutputOf(chunks, Stderr), k)
  {
    hide Contains, Overflowed;
    var out := Monitor([], 0, false, sig.None?, "");
    var err := out;
    var errHead := "";
    NothingYet(sig, k);
    for i := 0 to |chunks|
      invariant Tracks(out, sig, k, TextsOf(chunks[..i], Stdout))
      invariant Tracks(err, sig, k, TextsOf(chunks[..i], Stderr))
      invariant sig.Some? ==> errHead == FirstN(OutputOf(chunks[..i], Stderr), k)
    {
      var Chunk(stream, text) := chunks[i];
      NextChunk(chunks, i);
      if stream == Stdout {
        out := Feed(out, sig, k, text, TextsOf(chunks[..i], Stdout));
      } else {
        err := Feed(err, sig, k, text, TextsOf(chunks[..i], Stderr));
        HeadGrows(OutputOf(chunks[..i], Stderr), text, k);
        if sig.Some? && k > 0 && |errHead| < k {
          var need := k - |errHead|;
          errHead := errHead + FirstN(text, need);
        }
      }
    }
    assert chunks[..|chunks|] == chunks;
    stdout := Join(out.parts) + if out.overflow then SUFFIX else "";
    stderr := Join(err.parts) + if err.overflow then SUFFIX else "";
    found := out.found || err.found;
    boundary := out.tail + "\n" + errHead;
  }

  lemma NothingYet(sig: Option<string>, k: nat)
    requires sig.Some? ==> sig.value != ""
    ensures Tracks(Monitor([], 0, false, sig.None?, ""), sig, k, [])
  {
  }

  lemma NextChunk(chunks: seq<Chunk>, i: nat)
    requires i < |chunks|
    ensures var Chunk(stream, text) := chunks[i];
            var other := if stream == Stdout then Stderr else Stdout;
            && TextsOf(chunks[..i + 1], stream) == TextsOf(chunks[..i], stream) + [text]
            && OutputOf(chunks[..i + 1], stream) == OutputOf(chunks[..i], stream) + text
            && TextsOf(chunks[..i + 1], other) == TextsOf(chunks[..i], other)
  {
    assert chunks[..i + 1][..i] == chunks[..i];
    JoinAppend(TextsOf(chunks[..i], chunks[i].stream), chunks[i].text);
  }

  // Cutting before appending loses nothing once the result is cut again.
  lemma FirstNTwice(s: string, t: string)
    ensures FirstN(FirstN(s, MAX_CAPTURE_CHARS) + t, MAX_CAPTURE_CHARS) == FirstN(s + t, MAX_CAPTURE_CHARS)
    ensures |FirstN(s, MAX_CAPTURE_CHARS)| >= MAX_CAPTURE_CHARS <==> |s| >= MAX_CAPTURE_CHARS
    ensures |FirstN(s, MAX_CAPTURE_CHARS)| + |t| > MAX_CAPTURE_CHARS
        ==> |s| >= MAX_CAPTURE_CHARS || |s + t| > MAX_CAPTURE_CHARS
  {
  }
}
