/** The Java sample that listens to a reader's autonomous stream: its
    command-line handling in `main` and the transport-trace toggle
    `setTrace`. The serial transport is not part of this model; its calls
    are recorded as `Action`s and the outcome of `connect` is a parameter. */
module ReceiveAutonomous {
  import opened Wrappers
  import opened Ascii

  /** Calls `main` and `setTrace` make on the serial transport. */
  datatype Action = AddTransportListener | RemoveTransportListener | Connect(uri: string) | ReceiveStreaming

  /* ---------------------------------------------------------------------- */
  /* setTrace                                                               */
  /* ---------------------------------------------------------------------- */

  /** The static `currentListener` field: whether a listener was recorded. */
  datatype TraceState = TraceState(recorded: bool)

  /** The state of a freshly loaded class: no listener recorded. */
  const InitialTrace: TraceState := TraceState(false)

  /** Exceptions the model's Java code can raise. */
  datatype JavaException = ArrayIndexOutOfBounds

  /** The words that turn tracing on: "on" in any letter case. */
  predicate IsOnWord(s: string)
  {
    |s| == 2 && (s[0] == 'o' || s[0] == 'O') && (s[1] == 'n' || s[1] == 'N')
  }

  /** `setTrace(st, args)`: "on" (any case) adds the transport listener and
      records it; any other word removes it, but only if one was recorded
      before; the record is never cleared. An empty array throws. */
  function SetTrace(st: TraceState, args: seq<string>): (r: Result<(TraceState, seq<Action>), JavaException>)
    ensures r.Success? <==> |args| > 0
    ensures r.Success? ==> r.value.0.recorded == (st.recorded || IsOnWord(args[0]))
    ensures r.Success? ==>
      r.value.1 == (if IsOnWord(args[0]) then [AddTransportListener]
                    else if st.recorded then [RemoveTransportListener]
                    else [])
  {
    if |args| == 0 then Failure(ArrayIndexOutOfBounds)
    else
      LowerIsOn(args[0]);
      if Lower(args[0]) == "on" then Success((TraceState(true), [AddTransportListener]))
      else if st.recorded then Success((st, [RemoveTransportListener]))
      else Success((st, []))
  }

  /** Lower-casing gives "on" exactly for the four spellings of the word. */
  lemma LowerIsOn(s: string)
    ensures Lower(s) == "on" <==> IsOnWord(s)
  {
    if |s| == 2 {
      assert Lower(s) == [Lower(s)[0], Lower(s)[1]];
      assert s[1..][1..] == [];
    }
  }

  /** A sequence of `setTrace` calls, one word each. */
  function TraceCalls(st: TraceState, words: seq<string>): (TraceState, seq<Action>)
    decreases |words|
  {
    if |words| == 0 then (st, [])
    else
      var step := SetTrace(st, [words[0]]).value;
      var rest := TraceCalls(step.0, words[1..]);
      (rest.0, step.1 + rest.1)
  }

  /** After any sequence of calls a listener is recorded exactly when one
      was before or some call said "on": the record is never cleared. */
  lemma {:induction false} RecordNeverCleared(st: TraceState, words: seq<string>)
    ensures TraceCalls(st, words).0.recorded <==>
            st.recorded || exists i :: 0 <= i < |words| && IsOnWord(words[i])
    decreases |words|
  {
    if |words| > 0 {
      var step := SetTrace(st, [words[0]]).value;
      RecordNeverCleared(step.0, words[1..]);
      if exists i :: 0 <= i < |words[1..]| && IsOnWord(words[1..][i]) {
        var i :| 0 <= i < |words[1..]| && IsOnWord(words[1..][i]);
        assert IsOnWord(words[i + 1]);
      }
      if exists i :: 0 <= i < |words| && IsOnWord(words[i]) {
        var i :| 0 <= i < |words| && IsOnWord(words[i]);
        if i > 0 { assert IsOnWord(words[1..][i - 1]); }
      }
    }
  }

  /** Once "on" was said, every later word that is not "on" removes the
      listener again, however often. */
  lemma RemovesAfterOn(words: seq<string>)
    requires |words| > 0 && !IsOnWord(words[|words| - 1])
    requires exists i :: 0 <= i < |words| - 1 && IsOnWord(words[i])
    ensures
      var before := TraceCalls(InitialTrace, words[..|words| - 1]).0;
      SetTrace(before, [words[|words| - 1]]).value.1 == [RemoveTransportListener]
  {
    var init := words[..|words| - 1];
    var i :| 0 <= i < |words| - 1 && IsOnWord(words[i]);
    assert IsOnWord(init[i]);
    RecordNeverCleared(InitialTrace, init);
  }

  /* ---------------------------------------------------------------------- */
  /* main                                                                   */
  /* ---------------------------------------------------------------------- */

  /** What `connect` and `receiveStreaming` did: `connect` returned true
      and `receiveStreaming` returned, `connect` returned false, `connect`
      threw, or `connect` returned true and `receiveStreaming` threw. */
  datatype ConnectReply = Connected | NotConnected | ConnectThrew | StreamThrew

  /** Whether `connect` returned true. */
  predicate ConnectSucceeded(reply: ConnectReply)
  {
    reply.Connected? || reply.StreamThrew?
  }

  /** The behaviour of the serial transport's foreign code in one run:
      whether `new SerialTransport()` throws, whether `addTransportListener`
      throws when called, and what `connect` and `receiveStreaming` do. */
  datatype Transport = Transport(constructorThrows: bool, listenerThrows: bool, reply: ConnectReply)

  /** Whether `main` gets past creating the transport and, when tracing,
      adding the listener, so that it reaches `connect`. */
  predicate SetupSucceeded(t: Transport, trace: bool)
  {
    !t.constructorThrows && !(trace && t.listenerThrows)
  }

  /** How `main` ends: through `usage` (`System.exit(1)`), or by returning,
      possibly after one of its handlers caught an exception. */
  datatype MainOutcome = Usage | Returned(actions: seq<Action>, caught: bool)

  function ExitStatus(o: MainOutcome): int
  {
    if o.Usage? then 1 else 0
  }

  predicate StartsWithSlash(s: string)
  {
    |s| > 0 && s[0] == '/'
  }

  /** Position of the URI argument: after an optional leading "-v". */
  function UriIndex(argv: seq<string>): nat
    requires |argv| > 0
  {
    if argv[0] == "-v" then 1 else 0
  }

  /** `main(argv)`, with the transport's behaviour as a parameter. */
  function Main(argv: seq<string>, t: Transport): MainOutcome
  {
    if |argv| < 1 then Usage
    else
      var trace := argv[0] == "-v";
      var nextarg := if trace then 1 else 0;
      if nextarg >= |argv| then Returned([], true)
      else if !StartsWithSlash(argv[nextarg]) then Usage
      else
        var uri := argv[nextarg];
        if t.constructorThrows then Returned([], true)
        else if trace && t.listenerThrows then Returned([AddTransportListener], true)
        else
          var traced := if trace then SetTrace(InitialTrace, ["on"]).value.1 else [];
          match t.reply
          case Connected => Returned(traced + [Connect(uri), ReceiveStreaming], false)
          case NotConnected => Returned(traced + [Connect(uri)], false)
          case ConnectThrew => Returned(traced + [Connect(uri)], true)
          case StreamThrew => Returned(traced + [Connect(uri), ReceiveStreaming], true)
  }

  /** No arguments: usage and exit status 1. */
  lemma NoArgumentsUsage(t: Transport)
    ensures Main([], t) == Usage && ExitStatus(Main([], t)) == 1
  {
  }

  /** "-v" alone makes `argv[1]` throw; the handler catches it, so the
      program ends normally without usage and without touching the
      transport. */
  lemma LoneTraceFlag(t: Transport)
    ensures Main(["-v"], t) == Returned([], true)
    ensures ExitStatus(Main(["-v"], t)) == 0
  {
  }

  /** With a URI argument present, the program goes on exactly when it
      starts with "/". It only ever connects to that URI. It tries to add
      the trace listener exactly when the first argument is "-v" and the
      transport was created, and it connects, once, exactly when that setup
      returned normally. */
  lemma UriRule(argv: seq<string>, t: Transport)
    requires |argv| > 0 && |argv| > UriIndex(argv)
    ensures Main(argv, t) != Usage <==> StartsWithSlash(argv[UriIndex(argv)])
    ensures Main(argv, t).Returned? ==>
      var actions := Main(argv, t).actions;
      var uri := argv[UriIndex(argv)];
      var trace := argv[0] == "-v";
      && (forall u :: Connect(u) in actions ==> u == uri)
      && (Connect(uri) in actions <==> SetupSucceeded(t, trace))
      && (SetupSucceeded(t, trace) ==> actions[if trace then 1 else 0] == Connect(uri))
      && (AddTransportListener in actions <==> trace && !t.constructorThrows)
  {
  }

  /** Arguments after the URI are never looked at. */
  lemma ExtraArgumentsIgnored(argv: seq<string>, extra: seq<string>, t: Transport)
    requires |argv| > 0 && |argv| > UriIndex(argv)
    ensures Main(argv + extra, t) == Main(argv, t)
  {
  }

  /** Streaming starts exactly when the program connected successfully. */
  lemma StreamingOnlyWhenConnected(argv: seq<string>, t: Transport)
    requires |argv| > 0 && |argv| > UriIndex(argv)
    ensures Main(argv, t).Returned? ==>
      (ReceiveStreaming in Main(argv, t).actions <==>
         ConnectSucceeded(t.reply) && Connect(argv[UriIndex(argv)]) in Main(argv, t).actions)
  {
  }

  /** Once the URI is accepted, a handler runs exactly when one of the
      transport's calls threw: the constructor, `addTransportListener` when
      tracing, `connect`, or `receiveStreaming`. The program still ends with
      status 0. */
  lemma CaughtExactlyWhenTransportThrew(argv: seq<string>, t: Transport)
    requires |argv| > 0 && |argv| > UriIndex(argv) && StartsWithSlash(argv[UriIndex(argv)])
    ensures Main(argv, t).Returned?
    ensures Main(argv, t).caught <==>
      || t.constructorThrows
      || (argv[0] == "-v" && t.listenerThrows)
      || t.reply == ConnectThrew || t.reply == StreamThrew
    ensures ExitStatus(Main(argv, t)) == 0
  {
  }
}
