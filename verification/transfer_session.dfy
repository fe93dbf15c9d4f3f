/**
 A whole session: the client requests several files, one after the other, over one connection. It asks for the next one
 when its loop for the present one has ended; the server has read that far ahead only if its own loop has ended too.
 */
module TransferSession {
  import opened TransferFrames
  import opened TransferProtocol
  import R = TransferRuns

  /** `written` are the files of the transfers before the present one, which is for names[current]. */
  datatype Session = Session(net: Net, current: nat, written: seq<seq<Byte>>)

  datatype Step =
    | Move(step: TransferProtocol.Step)
    | NextName  // the client goes on to the next of its arguments

  /** A server that is not done with the present transfer stays in it, and both channels stay as they are. */
  function Request(n: Net, name: Name): Net {
    var first := Initial(name);
    n.(client := first.client, server := if n.server.pc.VDone? then first.server else n.server)
  }

  ghost predicate Good(s: Session, files: map<Name, File>, names: seq<Name>) {
    && s.current < |names|
    && R.Stable(s.net, names[s.current], Content(files, names[s.current]))
    && |s.written| == s.current
    && forall i :: 0 <= i < s.current ==> s.written[i] == Content(files, names[i])
  }

  lemma {:induction false} StreamIsNotEmpty(f: File)
    ensures |Stream(f)| > 0
  {
  }

  /** When the client has the whole file, the server has finished and both channels are empty. */
  lemma {:induction false} ClientDoneIsComplete(n: Net, name: Name, f: File)
    requires R.Stable(n, name, f) && n.client.pc.CDone?
    ensures n.server.pc.VDone? && n.up == [] && n.down == [] && n.client.written == f
  {
    StreamIsNotEmpty(f);
    assert |n.down + ReplyLeft(n.server, f)| == 0;
    assert |n.up + RequestLeft(n.client, name)| == |RequestAwaited(n.server, name)|;
  }

  lemma {:induction false} RequestIsInitial(n: Net, name: Name, f: File, next: Name)
    requires R.Stable(n, name, f) && n.client.pc.CDone?
    ensures Request(n, next) == Initial(next)
  {
    ClientDoneIsComplete(n, name, f);
  }

  function NextRequest(s: Session, names: seq<Name>): Session
    requires s.current + 1 < |names|
  {
    Session(Request(s.net, names[s.current + 1]), s.current + 1, s.written + [s.net.client.written])
  }

  lemma {:induction false} NextRequestIsGood(s: Session, files: map<Name, File>, names: seq<Name>)
    requires Good(s, files, names) && s.net.client.pc.CDone? && s.current + 1 < |names|
    ensures Good(NextRequest(s, names), files, names)
  {
    hide R.Stable, Content, Initial, Request;
    var name, next := names[s.current], names[s.current + 1];
    ClientDoneIsComplete(s.net, name, Content(files, name));
    RequestIsInitial(s.net, name, Content(files, name), next);
    R.InitialStable(next, Content(files, next));
  }

  lemma {:induction false} MoveIsGood(s: Session, move: TransferProtocol.Step, files: map<Name, File>, names: seq<Name>)
    requires Good(s, files, names)
    ensures Good(s.(net := R.Next(s.net, move, files, names[s.current])), files, names)
  {
    hide R.Stable, R.Next, Content;
  }

  ghost function Next(s: Session, step: Step, files: map<Name, File>, names: seq<Name>): (r: Session)
    requires Good(s, files, names)
    ensures Good(r, files, names)
  {
    match step
    case Move(move) =>
      MoveIsGood(s, move, files, names);
      s.(net := R.Next(s.net, move, files, names[s.current]))
    case NextName =>
      if !s.net.client.pc.CDone? || s.current + 1 == |names| then s
      else
        NextRequestIsGood(s, files, names);
        NextRequest(s, names)
  }

  ghost function Run(files: map<Name, File>, names: seq<Name>, steps: seq<Step>): (r: Session)
    requires names != []
    ensures Good(r, files, names)
  {
    if steps == [] then
      R.InitialStable(names[0], Content(files, names[0]));
      Session(Initial(names[0]), 0, [])
    else
      Next(Run(files, names, steps[..|steps| - 1]), steps[|steps| - 1], files, names)
  }

  /** The client has gone through all its arguments. */
  predicate Finished(s: Session, names: seq<Name>) {
    s.net.client.pc.CDone? && s.current + 1 == |names|
  }

  /**
   End to end over a session, under every schedule: each file written before the present one is the file requested, in
   the order of the requests, or empty if the server cannot open it; whenever a transfer has ended for the client, the
   server has finished it, both channels are empty and its file is the one requested; so at the end there is one file for
   each name.
   */
  lemma {:induction false} EveryFileArrives(files: map<Name, File>, names: seq<Name>, steps: seq<Step>)
    requires names != []
    ensures var s := Run(files, names, steps);
            && s.current < |names| && |s.written| == s.current
            && (forall i :: 0 <= i < s.current ==> s.written[i] == if names[i] in files then files[names[i]] else [])
            && (s.net.client.pc.CDone? ==>
                  && s.net.server.pc.VDone? && s.net.up == [] && s.net.down == []
                  && s.net.client.written == if names[s.current] in files then files[names[s.current]] else [])
            && (Finished(s, names) ==>
                  var all := s.written + [s.net.client.written];
                  |all| == |names| &&
                  forall i :: 0 <= i < |names| ==> all[i] == if names[i] in files then files[names[i]] else [])
  {
    hide R.Stable;
    var s := Run(files, names, steps);
    if s.net.client.pc.CDone? {
      ClientDoneIsComplete(s.net, names[s.current], Content(files, names[s.current]));
    }
  }

  ghost predicate Possible(s: Session, step: Step, names: seq<Name>) {
    match step
    case Move(move) => R.Possible(s.net, move)
    case NextName => s.net.client.pc.CDone? && s.current + 1 < |names|
  }

  /** No deadlock in a session: until all files have arrived, bytes can move or the next file can be requested. */
  lemma {:induction false} SessionGoesOn(files: map<Name, File>, names: seq<Name>, steps: seq<Step>)
    requires names != [] && !Finished(Run(files, names, steps), names)
    ensures exists step :: Possible(Run(files, names, steps), step, names)
  {
    hide R.Stable, R.Possible, Content;
    var s := Run(files, names, steps);
    if s.net.client.pc.CDone? {
      assert Possible(s, NextName, names);
    } else {
      R.StableCanMove(s.net, names[s.current], Content(files, names[s.current]));
      var move :| R.Possible(s.net, move);
      assert Possible(s, Move(move), names);
    }
  }

  // ---------- A session ends ----------

  /** The bytes of the transfers from the i-th name on, and one for each request. */
  ghost function WorkAhead(files: map<Name, File>, names: seq<Name>, i: nat): nat
    decreases |names| - i
  {
    if i >= |names| then 0
    else
      R.InitialStable(names[i], Content(files, names[i]));
      1 + R.Work(Initial(names[i]), names[i], Content(files, names[i])) + WorkAhead(files, names, i + 1)
  }

  ghost function SessionWork(s: Session, files: map<Name, File>, names: seq<Name>): nat
    requires Good(s, files, names)
  {
    R.Work(s.net, names[s.current], Content(files, names[s.current])) + WorkAhead(files, names, s.current + 1)
  }

  lemma {:induction false} MoveUsesWork(s: Session, move: TransferProtocol.Step, files: map<Name, File>, names: seq<Name>)
    requires Good(s, files, names) && R.Possible(s.net, move)
    ensures SessionWork(Next(s, Move(move), files, names), files, names) < SessionWork(s, files, names)
  {
    hide R.Stable, R.Work, R.Possible, R.Next, Content;
    R.NextUsesWork(s.net, move, files, names[s.current]);
  }

  lemma {:induction false} RequestUsesWork(s: Session, files: map<Name, File>, names: seq<Name>)
    requires Good(s, files, names) && s.net.client.pc.CDone? && s.current + 1 < |names|
    ensures SessionWork(Next(s, NextName, files, names), files, names) < SessionWork(s, files, names)
  {
    hide R.Stable, R.Work, Content, Initial, Request;
    var name, next := names[s.current], names[s.current + 1];
    RequestIsInitial(s.net, name, Content(files, name), next);
    assert Next(s, NextName, files, names).net == Initial(next);
  }

  /** Every possible step of a session uses up work. */
  lemma {:induction false} SessionStepsUseUpWork(s: Session, step: Step, files: map<Name, File>, names: seq<Name>)
    requires Good(s, files, names) && Possible(s, step, names)
    ensures SessionWork(Next(s, step, files, names), files, names) < SessionWork(s, files, names)
  {
    hide Good, SessionWork, Next, R.Possible;
    match step
    case Move(move) => MoveUsesWork(s, move, files, names);
    case NextName => RequestUsesWork(s, files, names);
  }

  lemma {:induction false} OtherStepsDoNothing(s: Session, step: Step, files: map<Name, File>, names: seq<Name>)
    requires Good(s, files, names) && !Possible(s, step, names)
    ensures Next(s, step, files, names) == s
  {
    hide R.Stable, Content;
  }

  /** The steps of a run that did something. */
  ghost function Effective(files: map<Name, File>, names: seq<Name>, steps: seq<Step>): nat
    requires names != []
  {
    if steps == [] then 0
    else
      var before := steps[..|steps| - 1];
      if Possible(Run(files, names, before), steps[|steps| - 1], names) then 1 + Effective(files, names, before)
      else Effective(files, names, before)
  }

  /** Every session ends: no run, however long, has more effective steps than there was work at the start. */
  lemma {:induction false} SessionEnds(files: map<Name, File>, names: seq<Name>, steps: seq<Step>)
    requires names != []
    ensures Effective(files, names, steps) + SessionWork(Run(files, names, steps), files, names)
            <= SessionWork(Run(files, names, []), files, names)
  {
    hide Good, SessionWork, Next, Possible;
    if steps != [] {
      var before, step := steps[..|steps| - 1], steps[|steps| - 1];
      var s := Run(files, names, before);
      SessionEnds(files, names, before);
      assert Run(files, names, steps) == Next(s, step, files, names);
      if Possible(s, step, names) {
        SessionStepsUseUpWork(s, step, files, names);
      } else {
        OtherStepsDoNothing(s, step, files, names);
      }
    }
  }
}
