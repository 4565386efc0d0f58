/** Line buffering of a child's output, libanjuta/anjuta-launcher.c. */
module Launchers {
  import opened Options
  import opened Sequences

  datatype OutputType = Stdout | Stderr

  datatype Delivery = Delivery(outputType: OutputType, chars: string)

  /** What has been delivered for one stream. */
  function Text(deliveries: seq<Delivery>, outputType: OutputType): string
    decreases |deliveries|
  {
    if deliveries == [] then ""
    else
      var n := |deliveries| - 1;
      Text(deliveries[..n], outputType) + if deliveries[n].outputType == outputType then deliveries[n].chars else ""
  }

  lemma TextMore(deliveries: seq<Delivery>, d: Delivery, outputType: OutputType)
    ensures Text(deliveries + [d], outputType)
         == if d.outputType == outputType then Text(deliveries, outputType) + d.chars else Text(deliveries, outputType)
  {
    assert (deliveries + [d])[..|deliveries|] == deliveries;
  }

  /** A text up to its last newline. */
  function CompleteLines(t: string): (r: string)
    ensures r <= t && (r != "" ==> r[|r| - 1] == '\n')
    decreases |t|
  {
    if t == "" || t[|t| - 1] == '\n' then t else CompleteLines(t[..|t| - 1])
  }

  lemma {:induction false} CompleteLinesAre(t: string, k: nat)
    requires k <= |t| && (k > 0 ==> t[k - 1] == '\n') && '\n' !in t[k..]
    ensures CompleteLines(t) == t[..k]
    decreases |t|
  {
    if k < |t| {
      var n := |t| - 1;
      assert t[n] == t[k..][n - k];
      assert forall c | c in t[..n][k..] :: c in t[k..];
      CompleteLinesAre(t[..n], k);
      assert t[..n][..k] == t[..k];
    } else {
      assert t[..k] == t;
    }
  }

  /** What follows the last newline has none. */
  lemma {:induction false} Incomplete(t: string)
    ensures '\n' !in t[|CompleteLines(t)|..]
    decreases |t|
  {
    if t != "" && t[|t| - 1] != '\n' {
      var n := |t| - 1;
      Incomplete(t[..n]);
      var k := |CompleteLines(t[..n])|;
      assert t[k..] == t[..n][k..] + [t[n]];
    }
  }

  /** What has been delivered and what is pending: the complete lines of the input, and
      the rest.  So deliveries do not depend on how the input was cut into chunks. */
  ghost predicate Lined(delivered: string, pending: string, input: string) {
    delivered == CompleteLines(input) && delivered + pending == input
  }

  function Rest(buffer: Option<string>): string {
    if buffer.Some? then buffer.value else ""
  }

  function Unsent(allLines: string): Option<string> {
    var k := |CompleteLines(allLines)|;
    if k < |allLines| then Some(allLines[k..]) else None
  }

  lemma SplitLines(t: string)
    ensures CompleteLines(t) + Rest(Unsent(t)) == t
    ensures Unsent(t) != Some("") && '\n' !in Rest(Unsent(t))
  {
    Incomplete(t);
    var k := |CompleteLines(t)|;
    assert t[..k] == CompleteLines(t);
    assert t[..k] + t[k..] == t;
    if k == |t| {
      assert t[..k] + "" == t;
    }
  }

  /** A chunk more. */
  lemma LinedMore(delivered: string, pending: string, input: string, chars: string)
    requires Lined(delivered, pending, input)
    ensures var all := pending + chars; Lined(delivered + CompleteLines(all), Rest(Unsent(all)), input + chars)
  {
    var all := pending + chars;
    var done := CompleteLines(all);
    SplitLines(all);
    Incomplete(all);
    CutAppended(delivered, all, |done|);
    assert done == all[..|done|];
    assert done == "" && delivered != "" ==> (delivered + all)[|delivered| - 1] == delivered[|delivered| - 1];
    CompleteLinesAre(delivered + all, |delivered| + |done|);
    Associative(delivered, pending, chars);
    Associative(delivered, done, Rest(Unsent(all)));
  }

  predicate EndsLine(chars: string) {
    chars != "" && chars[|chars| - 1] == '\n'
  }

  /** One stream: its deliveries, its buffer and its input. */
  ghost predicate StreamValid(deliveries: seq<Delivery>, outputType: OutputType, buffer: Option<string>, input: string) {
    buffer != Some("") && Lined(Text(deliveries, outputType), Rest(buffer), input)
  }

  predicate WholeLines(deliveries: seq<Delivery>) {
    forall i :: 0 <= i < |deliveries| ==> EndsLine(deliveries[i].chars)
  }

  /** What a chunk adds: its complete lines are delivered in one go, the rest is kept. */
  function Sent(deliveries: seq<Delivery>, outputType: OutputType, allLines: string): seq<Delivery> {
    if CompleteLines(allLines) == "" then deliveries else deliveries + [Delivery(outputType, CompleteLines(allLines))]
  }

  lemma SentText(deliveries: seq<Delivery>, outputType: OutputType, allLines: string)
    requires WholeLines(deliveries)
    ensures Text(Sent(deliveries, outputType, allLines), outputType) == Text(deliveries, outputType) + CompleteLines(allLines)
    ensures WholeLines(Sent(deliveries, outputType, allLines))
  {
    if CompleteLines(allLines) == "" {
      assert Text(deliveries, outputType) + "" == Text(deliveries, outputType);
    } else {
      var d := Delivery(outputType, CompleteLines(allLines));
      TextMore(deliveries, d, outputType);
      assert EndsLine(d.chars);
    }
  }

  lemma ChunkMore(deliveries: seq<Delivery>, outputType: OutputType, buffer: Option<string>, input: string, chars: string)
    requires StreamValid(deliveries, outputType, buffer, input) && WholeLines(deliveries)
    ensures var allLines := Rest(buffer) + chars;
            && StreamValid(Sent(deliveries, outputType, allLines), outputType, Unsent(allLines), input + chars)
            && WholeLines(Sent(deliveries, outputType, allLines))
  {
    var allLines := Rest(buffer) + chars;
    LinedMore(Text(deliveries, outputType), Rest(buffer), input, chars);
    SplitLines(allLines);
    SentText(deliveries, outputType, allLines);
  }

  lemma OtherStream(deliveries: seq<Delivery>, outputType: OutputType, allLines: string, other: OutputType)
    requires other != outputType
    ensures Text(Sent(deliveries, outputType, allLines), other) == Text(deliveries, other)
  {
    TextMore(deliveries, Delivery(outputType, CompleteLines(allLines)), other);
  }

  function Last(outputType: OutputType, buffer: Option<string>): seq<Delivery> {
    if buffer.Some? then [Delivery(outputType, buffer.value)] else []
  }

  lemma FlushedText(deliveries: seq<Delivery>, out: Option<string>, err: Option<string>, outputType: OutputType)
    ensures Text((deliveries + Last(Stdout, out)) + Last(Stderr, err), outputType)
         == Text(deliveries, outputType) + Rest(if outputType == Stdout then out else err)
  {
    TextMore(deliveries, Delivery(Stdout, Rest(out)), outputType);
    TextMore(deliveries + Last(Stdout, out), Delivery(Stderr, Rest(err)), outputType);
    assert deliveries + [] == deliveries;
    assert (deliveries + Last(Stdout, out)) + [] == deliveries + Last(Stdout, out);
  }

  /** Once the rest of both streams has been delivered, everything has. */
  lemma Flushed(deliveries: seq<Delivery>, out: Option<string>, err: Option<string>, stdoutInput: string, stderrInput: string)
    requires StreamValid(deliveries, Stdout, out, stdoutInput) && StreamValid(deliveries, Stderr, err, stderrInput)
    ensures var last := (deliveries + Last(Stdout, out)) + Last(Stderr, err);
            Text(last, Stdout) == stdoutInput && Text(last, Stderr) == stderrInput
  {
    FlushedText(deliveries, out, err, Stdout);
    FlushedText(deliveries, out, err, Stderr);
  }

  lemma Kept(deliveries: seq<Delivery>, outputType: OutputType, out: Option<string>, outInput: string,
             err: Option<string>, errInput: string, chars: string)
    requires StreamValid(deliveries, Stdout, out, outInput) && StreamValid(deliveries, Stderr, err, errInput)
    requires WholeLines(deliveries)
    ensures var allLines := Rest(if outputType == Stdout then out else err) + chars;
            var sent := Sent(deliveries, outputType, allLines);
            && WholeLines(sent)
            && if outputType == Stdout
               then StreamValid(sent, Stdout, Unsent(allLines), outInput + chars) && StreamValid(sent, Stderr, err, errInput)
               else StreamValid(sent, Stdout, out, outInput) && StreamValid(sent, Stderr, Unsent(allLines), errInput + chars)
  {
    match outputType {
      case Stdout =>
        ChunkMore(deliveries, Stdout, out, outInput, chars);
        OtherStream(deliveries, Stdout, Rest(out) + chars, Stderr);
      case Stderr =>
        ChunkMore(deliveries, Stderr, err, errInput, chars);
        OtherStream(deliveries, Stderr, Rest(err) + chars, Stdout);
    }
  }

  class Launcher {
    var stdoutBuffer: Option<string>
    var stderrBuffer: Option<string>
    var bufferedOutput: bool
    var hasCallback: bool
    var deliveries: seq<Delivery>      // the calls of the output callback
    ghost var stdoutInput: string      // all that was read while there was a callback
    ghost var stderrInput: string

    ghost predicate Valid()
      reads this`stdoutBuffer, this`stderrBuffer, this`stdoutInput, this`stderrInput, this`deliveries
    {
      && StreamValid(deliveries, Stdout, stdoutBuffer, stdoutInput)
      && StreamValid(deliveries, Stderr, stderrBuffer, stderrInput)
      && WholeLines(deliveries)
    }

    constructor (hasCallback: bool)
      ensures Valid() && bufferedOutput && this.hasCallback == hasCallback
      ensures deliveries == [] && stdoutInput == stderrInput == ""
    {
      stdoutBuffer, stderrBuffer, bufferedOutput, this.hasCallback := None, None, true, hasCallback;
      deliveries, stdoutInput, stderrInput := [], "", "";
    }

    /** Scans back to behind the last newline. */
    static method FindIncompleteLine(allLines: string) returns (incompleteLine: nat)
      ensures incompleteLine == |CompleteLines(allLines)|
    {
      incompleteLine := |allLines|;
      while incompleteLine > 0 && (incompleteLine == |allLines| || allLines[incompleteLine] != '\n')
        invariant incompleteLine <= |allLines|
        invariant incompleteLine < |allLines| ==> '\n' !in allLines[incompleteLine + 1..]
      {
        assert incompleteLine < |allLines| ==>
            allLines[incompleteLine..] == [allLines[incompleteLine]] + allLines[incompleteLine + 1..];
        incompleteLine := incompleteLine - 1;
      }
      if incompleteLine < |allLines| {
        assert allLines[incompleteLine..] == [allLines[incompleteLine]] + allLines[incompleteLine + 1..];
        if allLines[incompleteLine] == '\n' {
          incompleteLine := incompleteLine + 1;
        }
      }
      CompleteLinesAre(allLines, incompleteLine);
    }

    /** One call of the output callback. */
    method Deliver(outputType: OutputType, chars: string)
      modifies this`deliveries
      ensures deliveries == old(deliveries) + [Delivery(outputType, chars)]
    {
      deliveries := deliveries + [Delivery(outputType, chars)];
    }

    /** The buffered part of anjuta_launcher_buffered_output. */
    method BufferLines(outputType: OutputType, chars: string)
      modifies this`stdoutBuffer, this`stderrBuffer, this`deliveries
      ensures var allLines := Rest(old(if outputType == Stdout then stdoutBuffer else stderrBuffer)) + chars;
              && stdoutBuffer == (if outputType == Stdout then Unsent(allLines) else old(stdoutBuffer))
              && stderrBuffer == (if outputType == Stderr then Unsent(allLines) else old(stderrBuffer))
              && deliveries == Sent(old(deliveries), outputType, allLines)
      ensures |old(deliveries)| <= |deliveries| <= |old(deliveries)| + 1
    {
      var buffer := match outputType case Stdout => stdoutBuffer case Stderr => stderrBuffer;
      var allLines := if buffer.Some? then buffer.value + chars else chars;
      assert allLines == Rest(buffer) + chars;
      var incompleteLine := FindIncompleteLine(allLines);
      buffer := if incompleteLine < |allLines| then Some(allLines[incompleteLine..]) else None;
      match outputType {
        case Stdout => stdoutBuffer := buffer;
        case Stderr => stderrBuffer := buffer;
      }
      if incompleteLine > 0 {
        assert allLines[..incompleteLine] == CompleteLines(allLines);
        Deliver(outputType, allLines[..incompleteLine]);
      }
    }

    /** anjuta_launcher_buffered_output.  Without buffering a chunk is delivered as it
        is, ahead of what is in the buffer. */
    method BufferedOutput(outputType: OutputType, chars: string)
      modifies this`stdoutBuffer, this`stderrBuffer, this`deliveries, this`stdoutInput, this`stderrInput
      ensures stdoutInput == old(stdoutInput) + (if hasCallback && outputType == Stdout then chars else "")
      ensures stderrInput == old(stderrInput) + (if hasCallback && outputType == Stderr then chars else "")
      ensures bufferedOutput && old(Valid()) ==> Valid()
      ensures !bufferedOutput && hasCallback && chars != "" ==> deliveries == old(deliveries) + [Delivery(outputType, chars)]
      ensures !bufferedOutput || !hasCallback ==> stdoutBuffer == old(stdoutBuffer) && stderrBuffer == old(stderrBuffer)
      ensures !hasCallback ==> deliveries == old(deliveries)
    {
      if chars == "" || !hasCallback {
        return;
      }
      match outputType {
        case Stdout => stdoutInput := stdoutInput + chars;
        case Stderr => stderrInput := stderrInput + chars;
      }
      if !bufferedOutput {
        Deliver(outputType, chars);
        return;
      }
      BufferLines(outputType, chars);
      if old(Valid()) {
        Kept(old(deliveries), outputType, old(stdoutBuffer), old(stdoutInput), old(stderrBuffer), old(stderrInput), chars);
      }
    }

    /** The last delivery of a stream, if anything is pending. */
    method DeliverRest(outputType: OutputType, buffer: Option<string>)
      modifies this`deliveries
      ensures deliveries == old(deliveries) + Last(outputType, buffer)
    {
      if buffer.Some? {
        Deliver(outputType, buffer.value);
      }
    }

    /** The end of anjuta_launcher_execution_done_cleanup: the rest of both streams.
        A buffer is only filled when there is a callback.  What is freed in the branch of
        stderr is the buffer of stdout once more, so that each pending buffer is released
        once, and nothing else is, exactly when none is pending for stderr. */
    method Flush() returns (stdoutReleased: nat, stderrReleased: nat)
      requires Valid() && (hasCallback || (stdoutBuffer == None && stderrBuffer == None))
      modifies this`stdoutBuffer, this`stderrBuffer, this`deliveries
      ensures Text(deliveries, Stdout) == stdoutInput && Text(deliveries, Stderr) == stderrInput
      ensures stdoutBuffer == None && stderrBuffer == None
      ensures deliveries == old((deliveries + Last(Stdout, stdoutBuffer)) + Last(Stderr, stderrBuffer))
      ensures stderrReleased == 0
      ensures (stdoutReleased == |old(Last(Stdout, stdoutBuffer))| && stderrReleased == |old(Last(Stderr, stderrBuffer))|)
              <==> old(stderrBuffer) == None
      ensures old(stderrBuffer).Some? ==> stdoutReleased == if old(stdoutBuffer).Some? then 2 else 0
    {
      stdoutReleased, stderrReleased := 0, 0;
      Flushed(deliveries, stdoutBuffer, stderrBuffer, stdoutInput, stderrInput);
      DeliverRest(Stdout, stdoutBuffer);
      if stdoutBuffer.Some? {
        stdoutReleased := stdoutReleased + 1;
      }
      DeliverRest(Stderr, stderrBuffer);
      if stderrBuffer.Some? && stdoutBuffer.Some? {
        stdoutReleased := stdoutReleased + 1;
      }
      stdoutBuffer, stderrBuffer := None, None;
    }
  }
}
