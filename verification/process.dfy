/** The result record of one external command and how its logs are cut down
    (`validator/core/subprocess.py`). Spawning, waiting and the clock are outside the
    model: the command's outcome and its elapsed time are inputs. */
module Process {
  import opened Text

  /** `CmdResult`: `ok` is derived from the exit code; the tails are decoded text. */
  datatype CmdResult = CmdResult(
    ok: bool,
    cmd: seq<string>,
    exitCode: int,
    elapsedMs: int,
    stdoutTail: string,
    stderrTail: string)

  /** The results `run_cmd` can return: it always sets `ok` to whether the exit code is 0,
      and every command result the pipeline consults comes from it. */
  type RunResult = r: CmdResult | r.ok == (r.exitCode == 0)
    witness CmdResult(true, [], 0, 0, "", "")

  /** The exit code reported for a command that ran past its timeout and was killed. */
  const TimeoutExitCode: int := 124

  /** What `communicate` produced: the process exited with a return code (negative for a
      signal), or the timeout expired, the process was killed and its output collected. */
  datatype ProcessOutcome =
    | Exited(code: int, out: seq<byte>, err: seq<byte>)
    | TimedOut(out: seq<byte>, err: seq<byte>)

  /** Python's `data[start:]`: a negative start counts from the end, and both are clamped
      to the sequence. */
  function PySuffix(data: seq<byte>, start: int): (r: seq<byte>)
    ensures |r| <= |data| && r == data[|data| - |r|..]
    ensures start >= 0 ==> |r| == if start <= |data| then |data| - start else 0
    ensures start < 0 ==> |r| == if -start <= |data| then -start else |data|
  {
    if start < 0 then
      (if -start <= |data| then data[|data| + start..] else data)
    else if start <= |data| then data[start..]
    else []
  }

  /** `_tail_bytes` before decoding: the whole data if it fits, else `data[-max_bytes:]`.
      Python reads `data[-0:]` as the whole data, so a limit of 0 keeps everything, and a
      negative limit drops bytes from the front instead of keeping the end. */
  function TailBytes(data: seq<byte>, maxBytes: int): (r: seq<byte>)
  {
    if |data| <= maxBytes then data else PySuffix(data, -maxBytes)
  }

  /** What the tail keeps, for every limit. */
  lemma TailBytesSpec(data: seq<byte>, maxBytes: int)
    ensures var r := TailBytes(data, maxBytes);
            && r == data[|data| - |r|..]
            && (maxBytes >= 1 ==> |r| == if |data| <= maxBytes then |data| else maxBytes)
            && (maxBytes == 0 ==> r == data)
            && (maxBytes < 0 ==> |r| == if |data| <= -maxBytes then 0 else |data| + maxBytes)
  {
  }

  /** Cutting twice to the same positive limit is the same as cutting once. */
  lemma TailBytesIdempotent(data: seq<byte>, maxBytes: int)
    requires maxBytes >= 1
    ensures TailBytes(TailBytes(data, maxBytes), maxBytes) == TailBytes(data, maxBytes)
  {
    TailBytesSpec(data, maxBytes);
  }

  /** The tail of a concatenation is determined by the end of it: appending at least
      `maxBytes` bytes hides everything written before. */
  lemma TailBytesForgetsHead(head: seq<byte>, data: seq<byte>, maxBytes: int)
    requires 1 <= maxBytes <= |data|
    ensures TailBytes(head + data, maxBytes) == TailBytes(data, maxBytes)
  {
  }

  /** `run_cmd` after the process finished: a timeout reports exit code 124; `ok` means
      exit code 0; stdout and stderr are cut to `maxLogBytes` each, independently, and
      then decoded (`decode` stands for UTF-8 decoding with replacement). */
  function MakeCmdResult(cmd: seq<string>, outcome: ProcessOutcome, elapsedMs: int,
                         maxLogBytes: int, decode: seq<byte> -> string): (r: CmdResult)
    ensures r.ok <==> r.exitCode == 0
    ensures r.cmd == cmd && r.elapsedMs == elapsedMs
    ensures outcome.TimedOut? ==> r.exitCode == TimeoutExitCode && !r.ok
    ensures outcome.Exited? ==> r.exitCode == outcome.code
    ensures r.stdoutTail == decode(TailBytes(outcome.out, maxLogBytes))
    ensures r.stderrTail == decode(TailBytes(outcome.err, maxLogBytes))
  {
    var code := match outcome
      case Exited(c, _, _) => c
      case TimedOut(_, _) => TimeoutExitCode;
    CmdResult(code == 0, cmd, code, elapsedMs,
              decode(TailBytes(outcome.out, maxLogBytes)),
              decode(TailBytes(outcome.err, maxLogBytes)))
  }

  /** A command that exits normally with code 0 is ok; a killed one never is, even when
      its output is identical. */
  lemma TimeoutNeverOk(cmd: seq<string>, out: seq<byte>, err: seq<byte>, elapsedMs: int,
                       maxLogBytes: int, decode: seq<byte> -> string)
    ensures MakeCmdResult(cmd, Exited(0, out, err), elapsedMs, maxLogBytes, decode).ok
    ensures !MakeCmdResult(cmd, TimedOut(out, err), elapsedMs, maxLogBytes, decode).ok
    ensures MakeCmdResult(cmd, Exited(0, out, err), elapsedMs, maxLogBytes, decode).stdoutTail
         == MakeCmdResult(cmd, TimedOut(out, err), elapsedMs, maxLogBytes, decode).stdoutTail
  {
  }
}
