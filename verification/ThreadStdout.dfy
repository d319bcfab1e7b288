/**
  Line-buffered standard output of one thread: a buffer that holds the unfinished
  line and a write callback, 0 standing for the default log output.
 */
module StdoutModel {

  type Callback = nat

  /** Bytes paired with the callback that receives them. */
  type Trace = seq<(Callback, char)>

  datatype State = State(buffer: string, callback: Callback, delivered: Trace)

  datatype Call = Write(data: string) | Flush | SetCallback(callback: Callback)

  function Tagged(callback: Callback, data: string): (t: Trace)
    ensures |t| == |data|
  {
    seq(|data|, i requires 0 <= i < |data| => (callback, data[i]))
  }

  /** What follows the last newline. */
  function LastLine(s: string): (r: string)
    ensures '\n' !in r
  {
    if s == "" then "" else if s[|s| - 1] == '\n' then "" else LastLine(s[..|s| - 1]) + [s[|s| - 1]]
  }

  /** ... and what comes up to it. */
  function FullLines(s: string): string {
    if s == "" then "" else if s[|s| - 1] == '\n' then s else FullLines(s[..|s| - 1])
  }

  function Flushed(s: State): State {
    State("", s.callback, s.delivered + Tagged(s.callback, s.buffer))
  }

  function Step(s: State, c: Call): State {
    match c
    case Write(data) =>
      if data == "" then Flushed(s) else
      var all := s.buffer + data;
      State(LastLine(all), s.callback, s.delivered + Tagged(s.callback, FullLines(all)))
    case Flush => Flushed(s)
    case SetCallback(callback) => Flushed(s).(callback := callback)
  }

  function Run(s: State, calls: seq<Call>): State
    decreases |calls|
  {
    if calls == [] then s else Run(Step(s, calls[0]), calls[1..])
  }

  /** Everything written, in order, each byte with the callback installed at the time. */
  function Written(callback: Callback, calls: seq<Call>): Trace
    decreases |calls|
  {
    if calls == [] then [] else
    match calls[0]
    case Write(data) => Tagged(callback, data) + Written(callback, calls[1..])
    case Flush => Written(callback, calls[1..])
    case SetCallback(next) => Written(next, calls[1..])
  }

  lemma {:induction false} LinesSplit(s: string)
    ensures FullLines(s) + LastLine(s) == s
  {
    if s != "" && s[|s| - 1] != '\n' {
      LinesSplit(s[..|s| - 1]);
      assert s == s[..|s| - 1] + [s[|s| - 1]];
    }
  }

  lemma LinesPush(s: string, c: char)
    ensures LastLine(s + [c]) == if c == '\n' then "" else LastLine(s) + [c]
    ensures FullLines(s + [c]) == if c == '\n' then s + [c] else FullLines(s)
  {
    assert (s + [c])[..|s|] == s;
  }

  lemma NothingTagged(callback: Callback)
    ensures Tagged(callback, "") == []
  {
  }

  lemma TaggedConcat(callback: Callback, a: string, b: string)
    ensures Tagged(callback, a + b) == Tagged(callback, a) + Tagged(callback, b)
  {
  }

  lemma Regroup(a: Trace, b: Trace, c: Trace)
    ensures a + b + c == a + (b + c)
  {
  }

  /** Delivered bytes plus the buffer. */
  function Accounted(s: State): Trace {
    s.delivered + Tagged(s.callback, s.buffer)
  }

  lemma StepAccounts(s: State, c: Call)
    ensures Accounted(Step(s, c)) == Accounted(s) + if c.Write? then Tagged(s.callback, c.data) else []
    ensures '\n' !in Step(s, c).buffer
  {
    if c.Write? && c.data != "" {
      var all := s.buffer + c.data;
      LinesSplit(all);
      TaggedConcat(s.callback, FullLines(all), LastLine(all));
      TaggedConcat(s.callback, s.buffer, c.data);
      Regroup(s.delivered, Tagged(s.callback, FullLines(all)), Tagged(s.callback, LastLine(all)));
      Regroup(s.delivered, Tagged(s.callback, s.buffer), Tagged(s.callback, c.data));
    } else {
      NothingTagged(Step(s, c).callback);
      NothingTagged(s.callback);
      assert Accounted(s) + [] == Accounted(s) == Step(s, c).delivered == Step(s, c).delivered + [];
    }
  }

  /** What a write delivers: nothing of an unfinished line, and otherwise whole lines, all there are. */
  lemma WriteDelivers(s: State, data: string)
    requires '\n' !in s.buffer && data != ""
    ensures var after := Step(s, Write(data));
      && '\n' !in after.buffer
      && ('\n' !in data ==> after == s.(buffer := s.buffer + data))
      && ('\n' in data ==> exists lines: string ::
            && lines != "" && lines[|lines| - 1] == '\n' && s.buffer + data == lines + after.buffer
            && after == State(after.buffer, s.callback, s.delivered + Tagged(s.callback, lines)))
  {
    var all := s.buffer + data;
    LinesSplit(all);
    NothingTagged(s.callback);
    if '\n' !in data {
      NoLines(all);
    } else {
      var lines := FullLines(all);
      EndsLine(all);
      assert "" + LastLine(all) == LastLine(all);
      assert all == lines + LastLine(all);
    }
  }

  lemma {:induction false} EndsLine(s: string)
    ensures FullLines(s) != "" ==> FullLines(s)[|FullLines(s)| - 1] == '\n'
  {
    if s != "" { EndsLine(s[..|s| - 1]); }
  }

  lemma {:induction false} NoLines(s: string)
    requires '\n' !in s
    ensures LastLine(s) == s && FullLines(s) == ""
  {
    if s != "" {
      NoLines(s[..|s| - 1]);
      assert s == s[..|s| - 1] + [s[|s| - 1]];
    }
  }

  /** Nothing is lost, reordered or sent to a callback installed later. */
  lemma {:induction false} RunAccounts(s: State, calls: seq<Call>)
    ensures Accounted(Run(s, calls)) == Accounted(s) + Written(s.callback, calls)
    ensures '\n' !in s.buffer ==> '\n' !in Run(s, calls).buffer
    decreases |calls|
  {
    if calls != [] {
      StepAccounts(s, calls[0]);
      RunAccounts(Step(s, calls[0]), calls[1..]);
    }
  }

  /** After a final flush the callbacks have received exactly what was written. */
  lemma FlushedRun(callback: Callback, calls: seq<Call>)
    ensures Run(State("", callback, []), calls + [Flush]).delivered == Written(callback, calls)
  {
    var s := State("", callback, []);
    RunAccounts(s, calls);
    RunLast(s, calls, Flush);
  }

  lemma {:induction false} RunLast(s: State, calls: seq<Call>, c: Call)
    ensures Run(s, calls + [c]) == Step(Run(s, calls), c)
    decreases |calls|
  {
    if calls == [] {
      assert Run(Step(s, c), []) == Step(s, c);
      assert ([] + [c])[1..] == [];
    } else {
      assert (calls + [c])[1..] == calls[1..] + [c];
      RunLast(Step(s, calls[0]), calls[1..], c);
    }
  }
}

/** The output fields of a thread and the functions that change them. */
module ThreadStdout {
  import opened StdoutModel

  datatype Data = NULL | Bytes(bytes: string)

  class Output {
    var buffer: string
    var writeCallback: Callback
    ghost var delivered: Trace

    ghost function Current(): State
      reads this
    {
      State(buffer, writeCallback, delivered)
    }

    ghost predicate Valid()
      reads this
    {
      '\n' !in buffer
    }

    constructor ()
      ensures Valid() && Current() == State("", 0, [])
    {
      buffer, writeCallback, delivered := "", 0, [];
    }

    /** One call of the write callback, or of the log output. */
    method Deliver(data: string)
      modifies this`delivered
      ensures delivered == old(delivered) + Tagged(writeCallback, data)
    {
      delivered := delivered + Tagged(writeCallback, data);
    }

    method Flush()
      modifies this
      ensures Valid() && Current() == Step(old(Current()), Call.Flush)
    {
      if |buffer| > 0 {
        Deliver(buffer);
        buffer := "";
      }
    }

    method SetCallback(callback: Callback)
      modifies this
      ensures Valid() && Current() == Step(old(Current()), Call.SetCallback(callback))
    {
      Flush();
      writeCallback := callback;
    }

    /** One byte of the loop of furi_thread_stdout_write. */
    method Push(c: char, ghost all: string, ghost sent: Trace)
      requires buffer == LastLine(all) && delivered == sent + Tagged(writeCallback, FullLines(all))
      modifies this
      ensures writeCallback == old(writeCallback)
      ensures buffer == LastLine(all + [c])
      ensures delivered == sent + Tagged(writeCallback, FullLines(all + [c]))
    {
      hide LastLine, FullLines, Tagged;
      LinesPush(all, c);
      buffer := buffer + [c];
      if c == '\n' {
        LinesSplit(all);
        assert FullLines(all) + buffer == all + [c];
        TaggedConcat(writeCallback, FullLines(all), buffer);
        Flush();
      }
    }

    method PushAll(bytes: string)
      requires Valid() && bytes != ""
      modifies this
      ensures Current() == Step(old(Current()), Call.Write(bytes))
    {
      hide LastLine, FullLines, Tagged;
      ghost var before, sent := buffer, delivered;
      NoLines(buffer);
      NothingTagged(writeCallback);
      assert before + bytes[..0] == before;
      for i := 0 to |bytes|
        invariant writeCallback == old(writeCallback)
        invariant buffer == LastLine(before + bytes[..i])
        invariant delivered == sent + Tagged(writeCallback, FullLines(before + bytes[..i]))
      {
        assert before + bytes[..i + 1] == before + bytes[..i] + [bytes[i]];
        Push(bytes[i], before + bytes[..i], sent);
      }
      assert bytes[..|bytes|] == bytes;
    }

    /** furi_thread_stdout_write; an empty or NULL write flushes and reports 0. */
    method Write(data: Data, size: nat) returns (written: nat)
      requires Valid() && (data.Bytes? ==> size <= |data.bytes|)
      modifies this
      ensures Valid()
      ensures data.NULL? ==> written == 0 && Current() == Step(old(Current()), Call.Flush)
      ensures data.Bytes? ==>
        written == size && Current() == Step(old(Current()), Call.Write(data.bytes[..size]))
    {
      if size == 0 || data.NULL? {
        Flush();
        return 0;
      }
      var bytes := data.bytes[..size];
      if bytes[size - 1] == '\n' {
        assert (buffer + bytes)[|buffer + bytes| - 1] == '\n';
        TaggedConcat(writeCallback, buffer, bytes);
        Flush();
        Deliver(bytes);
      } else {
        PushAll(bytes);
      }
      return size;
    }
  }
}
