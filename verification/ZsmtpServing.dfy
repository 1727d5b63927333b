/** The server's loop over a byte stream: read a command, handle it, answer, until the peer quits or the stream ends. */
module ZsmtpServing {
  import opened Utf8
  import opened Text
  import opened Framing
  import opened Codec
  import opened ZsmtpServer

  function Greeting(cfg: Config): string {
    "ZSMTP 1.0 " + cfg.domain
  }

  function CallList(call: Option<SinkCall>): seq<SinkCall> {
    if call.Some? then [call.value] else []
  }

  lemma LineShrinks(b: Bytes)
    ensures TakeLine(b).Took? ==> |TakeLine(b).rest| < |b|
  {
    hide Decode, UntilLf;
  }

  lemma BlobShrinks(b: Bytes)
    ensures TakeBlob(b).Took? ==> |TakeBlob(b).rest| < |b|
  {
    hide TakeLine, ParseUnsigned, Trim, StartsWith;
    LineShrinks(b);
  }

  lemma TurnShrinks(cfg: Config, s: Server, input: Bytes, env: Env)
    ensures var t := ServeTurn(cfg, s, input, env); t.Answered? ==> |t.rest| < |input|
  {
    hide TakeLine, TakeBlob, DecodeLine, Handle, AnswerBytes, LineBytes, StatusLine;
    LineShrinks(input);
    var line := TakeLine(input);
    if line.Took? { BlobShrinks(line.rest); }
  }

  /** What serving a stream leaves: the session, everything written, and every call to the sink. */
  datatype Served = Served(server: Server, output: Bytes, calls: seq<SinkCall>)

  function Ahead(output: Bytes, calls: seq<SinkCall>, r: Served): Served {
    Served(r.server, output + r.output, calls + r.calls)
  }

  /** `run` after its greeting, on a stream that holds `input` and then ends; the k-th command meets the directory,
      the clock and the sink as `envs(k)`. */
  function Serve(cfg: Config, s: Server, input: Bytes, envs: nat -> Env, k: nat): Served
    decreases |input|
  {
    TurnShrinks(cfg, s, input, envs(k));
    match ServeTurn(cfg, s, input, envs(k))
    case HungUp(t, call, said) => Served(t, said, CallList(call))
    case Answered(t, rest, output, call, quit) =>
      Ahead(output, CallList(call), if quit then Served(t, [], []) else Serve(cfg, t, rest, envs, k + 1))
  }

  /** The command a turn handles, if it gets as far as one. */
  function CommandOf(cfg: Config, input: Bytes): Option<Command> {
    match TakeLine(input)
    case Refused(_) => None
    case Took(line, rest) =>
      match DecodeLine(cfg.p.b64, line)
      case Ok(Invoice(sender, messageId, payload, _)) => (
        match TakeBlob(rest)
        case Refused(_) => None
        case Took(body, _) => Some(Invoice(sender, messageId, payload, body)))
      case Ok(cmd) => Some(cmd)
      case _ => None
  }

  /** The turn finds its line, and the blob if it needs one. */
  predicate Framed(cfg: Config, input: Bytes) {
    match TakeLine(input)
    case Refused(_) => false
    case Took(line, rest) => DecodesToInvoice(cfg, line) ==> TakeBlob(rest).Took?
  }

  predicate DecodesToInvoice(cfg: Config, line: string) {
    var d := DecodeLine(cfg.p.b64, line);
    d.Ok? && d.command.Invoice?
  }

  /** What a turn leaves on the stream. */
  function Past(cfg: Config, input: Bytes): Bytes {
    match TakeLine(input)
    case Refused(_) => PastLine(input)
    case Took(line, rest) => if DecodesToInvoice(cfg, line) then PastBlob(rest) else rest
  }

  /** The commands the loop handles, in order. */
  function Commands(cfg: Config, s: Server, input: Bytes, envs: nat -> Env, k: nat): seq<Input>
    decreases |input|
  {
    TurnShrinks(cfg, s, input, envs(k));
    var cmd := CommandOf(cfg, input);
    var now := if cmd.Some? then [Input(cmd.value, envs(k))] else [];
    match ServeTurn(cfg, s, input, envs(k))
    case HungUp(_, _, _) => now
    case Answered(t, rest, _, _, quit) => now + (if quit then [] else Commands(cfg, t, rest, envs, k + 1))
  }

  /** A turn is the handling of its command, or leaves the session alone. */
  lemma TurnIsHandle(cfg: Config, s: Server, input: Bytes, env: Env)
    ensures var t := ServeTurn(cfg, s, input, env);
            var after := if t.Answered? then (t.server, t.call) else (t.afterServer, t.afterCall);
            match CommandOf(cfg, input)
            case None => after == (s, None)
            case Some(cmd) => after == (Handle(cfg, s, cmd, env).server, Handle(cfg, s, cmd, env).call)
  {
    hide TakeLine, TakeBlob, DecodeLine, Handle, AnswerBytes, LineBytes, StatusLine;
  }

  function CallsOf(past: seq<Event>): seq<SinkCall> {
    if past == [] then [] else CallsOf(past[..|past| - 1]) + CallList(past[|past| - 1].call)
  }

  lemma RunOneMore(cfg: Config, before: seq<Input>, i: Input)
    ensures var (s, past) := Run(cfg, before);
            var (t, now) := Run(cfg, before + [i]);
            t == Handle(cfg, s, i.cmd, i.env).server && CallsOf(now) == CallsOf(past) + CallList(Handle(cfg, s, i.cmd, i.env).call)
  {
    hide Handle;
    var all := before + [i];
    assert all[..|all| - 1] == before && all[|all| - 1] == i;
    var past := Run(cfg, before).1;
    var h := Handle(cfg, Run(cfg, before).0, i.cmd, i.env);
    var e := Event(i.cmd, i.env, h.answer, h.call);
    assert (past + [e])[..|past|] == past;
  }

  /** The run with the command of one turn added to it. */
  lemma TurnIsRun(cfg: Config, before: seq<Input>, input: Bytes, env: Env)
    ensures var (s, past) := Run(cfg, before);
            var cmd := CommandOf(cfg, input);
            var (t, now) := Run(cfg, before + if cmd.Some? then [Input(cmd.value, env)] else []);
            var turn := ServeTurn(cfg, s, input, env);
            && t == (if turn.Answered? then turn.server else turn.afterServer)
            && CallsOf(now) == CallsOf(past) + CallList(if turn.Answered? then turn.call else turn.afterCall)
  {
    hide ServeTurn, Handle, CommandOf, Run, CallsOf;
    var (s, past) := Run(cfg, before);
    TurnIsHandle(cfg, s, input, env);
    var cmd := CommandOf(cfg, input);
    if cmd.Some? {
      RunOneMore(cfg, before, Input(cmd.value, env));
    } else {
      assert before + [] == before && CallsOf(past) + [] == CallsOf(past);
    }
  }

  /** The loop over bytes is the run over its commands: the same session and the same sink calls. */
  lemma {:induction false} ServeIsRun(cfg: Config, before: seq<Input>, input: Bytes, envs: nat -> Env, k: nat)
    ensures var (s, past) := Run(cfg, before);
            var served := Serve(cfg, s, input, envs, k);
            var (t, now) := Run(cfg, before + Commands(cfg, s, input, envs, k));
            t == served.server && CallsOf(now) == CallsOf(past) + served.calls
    decreases |input|
  {
    hide ServeTurn, CommandOf, Run, CallsOf;
    var (s, past) := Run(cfg, before);
    TurnShrinks(cfg, s, input, envs(k));
    TurnIsRun(cfg, before, input, envs(k));
    var cmd := CommandOf(cfg, input);
    var now := if cmd.Some? then [Input(cmd.value, envs(k))] else [];
    var turn := ServeTurn(cfg, s, input, envs(k));
    if turn.Answered? && !turn.quit {
      ServeIsRun(cfg, before + now, turn.rest, envs, k + 1);
      Concatenate(before, now, Commands(cfg, turn.server, turn.rest, envs, k + 1));
      ConcatenateCalls(CallsOf(past), CallList(turn.call), Serve(cfg, turn.server, turn.rest, envs, k + 1).calls);
    } else {
      Concatenate(before, now, []);
      ConcatenateCalls(CallsOf(past), CallList(if turn.Answered? then turn.call else turn.afterCall), []);
    }
  }

  lemma Concatenate(a: seq<Input>, b: seq<Input>, c: seq<Input>)
    ensures a + (b + c) == a + b + c && b + [] == b
  {
  }

  lemma ConcatenateCalls(a: seq<SinkCall>, b: seq<SinkCall>, c: seq<SinkCall>)
    ensures a + (b + c) == a + b + c && b + [] == b
  {
  }

  /** Safety on the wire: whatever bytes a peer sends, every call the server makes to its sink belongs to an INVOICE
      of the session, and the history before it justifies it. */
  lemma ServedCallsJustified(cfg: Config, input: Bytes, envs: nat -> Env)
    ensures var past := Run(cfg, Commands(cfg, FRESH, input, envs, 0)).1;
            && Serve(cfg, FRESH, input, envs, 0).calls == CallsOf(past)
            && forall i | 0 <= i < |past| :: Justified(cfg, past[..i], past[i])
  {
    var cmds := Commands(cfg, FRESH, input, envs, 0);
    ServeIsRun(cfg, [], input, envs, 0);
    assert [] + cmds == cmds;
    assert CallsOf([]) == [];
    hide Serve, Commands;
    SinkCallsJustified(cfg, cmds);
  }

  // ---------------------------------------------------------------- the loop

  datatype Went = Goes | Quits | Hangs

  /** One turn of the loop, on the session and its two channels. */
  method ServeOnce(session: ZsmptSession, input: Channel, output: Channel, env: Env) returns (went: Went)
    requires input != output
    modifies session, input, output
    ensures input.data == Past(session.cfg, old(input.data))
    ensures match ServeTurn(session.cfg, old(session.Model()), old(input.data), env)
            case HungUp(t, call, said) =>
              && went == Hangs && session.Model() == t && session.calls == old(session.calls) + CallList(call)
              && output.data == old(output.data) + said
            case Answered(t, rest, out, call, quit) =>
              && went == (if quit then Quits else Goes) && session.Model() == t
              && session.calls == old(session.calls) + CallList(call)
              && input.data == rest && output.data == old(output.data) + out
  {
    hide TakeLine, TakeBlob, DecodeLine, Handle, AnswerBytes, LineBytes, StatusLine, Begun;
    assert session.calls + [] == session.calls && output.data + [] == output.data;
    var taken := input.ReadLine();
    if taken.Refused? { return Hangs; }
    var cmd: Command;
    match DecodeLine(session.cfg.p.b64, taken.value) {
      case Ok(Invoice(sender, messageId, payload, _)) =>
        var blob := input.ReadBlob();
        if blob.Refused? { return Hangs; }
        cmd := Invoice(sender, messageId, payload, blob.value);
      case Ok(c) => cmd := c;
      case _ =>
        output.data := output.data + LineBytes(StatusLine(SYNTAX, "unknown command"));
        return Goes;
    }
    var answer := session.HandleCommand(cmd, env);
    var out := AnswerBytes(answer);
    if out.None? {
      output.data := output.data + Begun(answer);
      return Hangs;
    }
    output.data := output.data + out.value;
    return if cmd.Quit? then Quits else Goes;
  }

  /** `run`: the greeting, then turns until the peer quits or the stream ends. */
  method RunSession(session: ZsmptSession, input: Channel, output: Channel, envs: nat -> Env)
    requires input != output
    modifies session, input, output
    ensures var greeting := Greeting(session.cfg);
            if !Writable(greeting) then output.data == old(output.data) && session.calls == old(session.calls) && session.Model() == old(session.Model())
            else
              var served := Serve(session.cfg, old(session.Model()), old(input.data), envs, 0);
              && session.Model() == served.server && session.calls == old(session.calls) + served.calls
              && output.data == old(output.data) + LineBytes(greeting) + served.output
  {
    hide ServeTurn, LineBytes, Writable, Greeting, Serve;
    var wrote := output.WriteLine(Greeting(session.cfg));
    assert old(output.data) + [] == old(output.data);
    if wrote {
      ServeLoop(session, input, output, envs);
    }
  }

  method ServeLoop(session: ZsmptSession, input: Channel, output: Channel, envs: nat -> Env)
    requires input != output
    modifies session, input, output
    ensures var served := Serve(session.cfg, old(session.Model()), old(input.data), envs, 0);
            && session.Model() == served.server && session.calls == old(session.calls) + served.calls
            && output.data == old(output.data) + served.output
  {
    hide ServeTurn, Serve, Ahead, Past;
    ghost var whole := Serve(session.cfg, session.Model(), input.data, envs, 0);
    ghost var written: Bytes, made: seq<SinkCall> := [], [];
    AheadOfNothing(whole);
    assert session.calls + [] == session.calls && output.data + [] == output.data;
    var k := 0;
    var went := Goes;
    while went == Goes
      invariant session.calls == old(session.calls) + made && output.data == old(output.data) + written
      invariant went == Goes ==> whole == Ahead(written, made, Serve(session.cfg, session.Model(), input.data, envs, k))
      invariant went != Goes ==> whole == Served(session.Model(), written, made)
      decreases went == Goes, |input.data|
    {
      ghost var turn := ServeTurn(session.cfg, session.Model(), input.data, envs(k));
      TurnShrinks(session.cfg, session.Model(), input.data, envs(k));
      AheadOfTurn(session.cfg, session.Model(), input.data, envs, k, written, made);
      went := ServeOnce(session, input, output, envs(k));
      ghost var out, calls := if turn.Answered? then turn.output else turn.said, CallList(if turn.Answered? then turn.call else turn.afterCall);
      assert old(output.data) + written + out == old(output.data) + (written + out);
      assert old(session.calls) + made + calls == old(session.calls) + (made + calls);
      assert output.data + [] == output.data;
      written, made := written + out, made + calls;
      k := k + 1;
    }
  }

  lemma AheadOfNothing(r: Served)
    ensures Ahead([], [], r) == r
  {
    assert [] + r.output == r.output && [] + r.calls == r.calls;
  }

  /** What has been written and called so far, and the turn that comes next. */
  lemma AheadOfTurn(cfg: Config, s: Server, input: Bytes, envs: nat -> Env, k: nat, written: Bytes, made: seq<SinkCall>)
    ensures var ahead := Ahead(written, made, Serve(cfg, s, input, envs, k));
            match ServeTurn(cfg, s, input, envs(k))
            case HungUp(t, call, said) => ahead == Served(t, written + said, made + CallList(call))
            case Answered(t, rest, output, call, quit) =>
              ahead == if quit then Served(t, written + output, made + CallList(call))
                       else Ahead(written + output, made + CallList(call), Serve(cfg, t, rest, envs, k + 1))
  {
    hide ServeTurn;
    TurnShrinks(cfg, s, input, envs(k));
    var turn := ServeTurn(cfg, s, input, envs(k));
    if turn.Answered? {
      var tail := if turn.quit then Served(turn.server, [], []) else Serve(cfg, turn.server, turn.rest, envs, k + 1);
      assert written + (turn.output + tail.output) == written + turn.output + tail.output;
      assert made + (CallList(turn.call) + tail.calls) == made + CallList(turn.call) + tail.calls;
      assert written + turn.output + [] == written + turn.output && made + CallList(turn.call) + [] == made + CallList(turn.call);
    }
  }
}
