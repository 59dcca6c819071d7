/** The log monitor of vtm-tile.cpp: the client's connect loop and its reader callbacks, the server's monitor task,
    and the stream between them, as a state machine over the steps of all of them. */
module LogMonitor {
  type Text = string

  datatype Owner = Free | ByMain | ByReader | ByCloser

  /** Where the connect loop is. Greeting(k): k of the first three commands are sent. Counting(i) and Sending(i): line i of the
      buffer is next, before and after it has been counted. */
  datatype MainPc = Connecting | Sleeping | Greeting(k: nat) | Counting(i: nat) | Sending(i: nat) | Clearing | Activating | Unlocking | Reading | Done

  /** The callback for a line: it has the lock, or has also counted the line and is to send it. */
  datatype ReaderPc = Idle | HasLine(line: Text) | HasCounted(line: Text)

  /** The callback for the end of input. */
  datatype CloserPc = Open | Waiting | Closed

  datatype Client = Client(lock: Owner, main: MainPc, reader: ReaderPc, closer: CloserPc, online: bool, active: bool, result: int, buffer: seq<Text>)

  datatype Down = Reply(text: Text) | Log(text: Text)

  /** The stream: whether it is up, and what is on its way on it. */
  datatype Stream = Stream(up: bool, commands: seq<Text>, replies: seq<Down>)

  datatype Server = Server(init: nat, active: bool, id: Text, env: Text, cwd: Text, cmd: Text)

  /** What has happened: the script and the lines in the order of entry, the commands sent, received and answered, and how
      many commands and replies were lost: those that went down with the stream, and commands sent when it was down. */
  datatype History = History(entered: seq<Text>, sent: seq<Text>, received: seq<Text>, answered: seq<Text>, lost: nat)

  /** `greeting` is the monitor's id, its environment and its working directory. */
  datatype State = State(greeting: seq<Text>, c: Client, n: Stream, v: Server, h: History)

  /** The script is the first line of the buffer. */
  function Initial(greeting: seq<Text>, script: Text): State {
    State(greeting, Client(ByMain, Connecting, Idle, Open, true, false, 0, [script]), Stream(false, [], []),
          Server(0, false, "", "", "", ""), History([script], [], [], [], 0))
  }

  datatype Action = Fails | Denied | Relock | Connects | MainStep | StreamEnds | Types(line: Text) | ReaderStep
                  | EndsInput | CloserStep | ServerStep | ServerLogs(text: Text) | ClientReads | Drops

  /** events.command.send: what is written to a stream that is down is lost. */
  function Send(s: State, text: Text): State {
    s.(n := if s.n.up then s.n.(commands := s.n.commands + [text]) else s.n,
       h := s.h.(sent := s.h.sent + [text], lost := if s.n.up then s.h.lost else s.h.lost + 1))
  }

  function WithMain(s: State, pc: MainPc): State {
    s.(c := s.c.(main := pc))
  }

  /** One step of the connect loop while it has the lock. */
  function MainNext(s: State): State {
    match s.c.main
    case Greeting(k) => if k < |s.greeting| then WithMain(Send(s, s.greeting[k]), Greeting(k + 1)) else WithMain(s, Counting(0))
    case Counting(i) => if i < |s.c.buffer| then s.(c := s.c.(result := s.c.result + 1, main := Sending(i))) else WithMain(s, Clearing)
    case Sending(i) => if i < |s.c.buffer| then WithMain(Send(s, s.c.buffer[i]), Counting(i + 1)) else s
    case Clearing => s.(c := s.c.(buffer := [], main := Activating))
    case Activating => s.(c := s.c.(active := true, main := Unlocking))
    case Unlocking => s.(c := s.c.(lock := Free, main := Reading))
    case _ => s
  }

  /** One step of the callback for a line. */
  function ReaderNext(s: State): State {
    match s.c.reader
    case HasLine(line) =>
      if s.c.active then s.(c := s.c.(result := s.c.result + 1, reader := HasCounted(line)))
      else s.(c := s.c.(buffer := s.c.buffer + [line], reader := Idle, lock := Free))
    case HasCounted(line) => var t := Send(s, line); t.(c := t.c.(reader := Idle, lock := Free))
    case Idle => s
  }

  function RepliesOf(d: seq<Down>): seq<Text> {
    if d == [] then [] else RepliesOf(d[..|d| - 1]) + match d[|d| - 1] case Reply(text) => [text] case Log(_) => []
  }

  /** The stream goes down, and with it what is on its way. */
  function Cut(s: State): State {
    s.(n := Stream(false, [], []), h := s.h.(lost := s.h.lost + |s.n.commands| + |RepliesOf(s.n.replies)|))
  }

  /** The server's callback for a command: the first three are the id, the environment and the directory. */
  function Received(v: Server, c: Text): Server {
    if v.active then v.(cmd := c)
    else if v.init == 0 then v.(id := c, init := v.init + 1)
    else if v.init == 1 then v.(env := c, init := v.init + 1)
    else if v.init == 2 then v.(active := true, cwd := c, init := v.init + 1)
    else v.(init := v.init + 1)
  }

  /** It replies to each command with the last one that was not part of the greeting. */
  function ServerNext(s: State): State
    requires s.n.commands != []
  {
    var c := s.n.commands[0];
    var v := Received(s.v, c);
    s.(v := v, n := s.n.(commands := s.n.commands[1..], replies := s.n.replies + [Reply(v.cmd)]), h := s.h.(received := s.h.received + [c]))
  }

  function ClientNext(s: State): State
    requires s.n.replies != []
  {
    var n := s.n.(replies := s.n.replies[1..]);
    match s.n.replies[0]
    case Reply(text) => s.(n := n, c := s.c.(result := s.c.result - 1), h := s.h.(answered := s.h.answered + [text]))
    case Log(_) => s.(n := n)
  }

  /** The state after an action; an action whose time has not come changes nothing. */
  function Step(s: State, a: Action): State {
    match a
    case Fails => if s.c.main == Connecting then s.(c := s.c.(lock := Free, main := Sleeping)) else s
    case Denied => if s.c.main == Connecting then s.(c := s.c.(lock := Free, main := Done)) else s
    case Relock =>
      if s.c.main != Sleeping || s.c.lock != Free then s
      else if s.c.online then s.(c := s.c.(lock := ByMain, main := Connecting))
      else s.(c := s.c.(main := Done))
    case Connects =>
      if s.c.main == Connecting then s.(n := Stream(true, [], []), c := s.c.(result := s.c.result + 3, main := Greeting(0))) else s
    case MainStep => MainNext(s)
    case StreamEnds => if s.c.main == Reading && !s.n.up && s.c.lock == Free then s.(c := s.c.(active := false, main := Done)) else s
    case Types(line) =>
      if s.c.lock == Free && s.c.reader == Idle
      then s.(c := s.c.(lock := ByReader, reader := HasLine(line)), h := s.h.(entered := s.h.entered + [line])) else s
    case ReaderStep => ReaderNext(s)
    case EndsInput => if s.c.lock == Free && s.c.closer == Open then s.(c := s.c.(lock := ByCloser, online := false, closer := Waiting)) else s
    case CloserStep =>
      if s.c.closer != Waiting || (s.c.active && s.c.result != 0) then s
      else var t := if s.c.active && s.n.up then Cut(s) else s; t.(c := t.c.(lock := Free, closer := Closed))
    case ServerStep => if s.n.up && s.n.commands != [] then ServerNext(s) else s
    case ServerLogs(text) => if s.n.up then s.(n := s.n.(replies := s.n.replies + [Log(text)])) else s
    case ClientReads => if s.c.main == Reading && s.n.replies != [] then ClientNext(s) else s
    case Drops => if s.n.up then Cut(s) else s
  }

  function Run(s: State, actions: seq<Action>): State {
    if actions == [] then s else Step(Run(s, actions[..|actions| - 1]), actions[|actions| - 1])
  }

  // What every step keeps.

  /** The lock is with whoever is inside. */
  predicate Locked(c: Client) {
    && (c.lock == ByMain <==> !(c.main.Sleeping? || c.main.Reading? || c.main.Done?))
    && (c.lock == ByReader <==> c.reader != Idle)
    && (c.lock == ByCloser <==> c.closer == Waiting)
    && (c.active <==> c.main.Unlocking? || c.main.Reading?)
    && (c.reader.HasCounted? ==> c.active)
  }

  /** Commands that are counted but not yet sent. */
  function Pending(s: State): int {
    (if s.c.main.Greeting? then 3 - s.c.main.k else if s.c.main.Sending? then 1 else 0)
    + (if s.c.reader.HasCounted? then 1 else 0)
  }

  /** `result` is what is on its way, in both directions: commands to be sent, commands and replies on the stream, and, once
      the stream has gone down, those that went down with it. */
  predicate Counted(s: State) {
    s.c.result == Pending(s) + |s.n.commands| + |RepliesOf(s.n.replies)| + s.h.lost && (s.n.up ==> s.h.lost == 0)
  }

  /** The line the reader has in its hands. */
  function Held(c: Client): seq<Text> {
    match c.reader case Idle => [] case HasLine(line) => [line] case HasCounted(line) => [line]
  }

  predicate BeforeConnection(pc: MainPc) {
    pc.Connecting? || pc.Sleeping?
  }

  /** What has been sent, and what waits: nothing is left out, nothing is sent twice, and the order is that of entry. */
  predicate Ordered(s: State) {
    var g, e := s.greeting, s.h.entered;
    match s.c.main
    case Connecting => s.h.sent == [] && s.c.buffer + Held(s.c) == e
    case Sleeping => s.h.sent == [] && s.c.buffer + Held(s.c) == e
    case Greeting(k) => k <= 3 == |g| && s.h.sent == g[..k] && s.c.buffer == e
    case Counting(i) => i <= |e| && s.h.sent == g + e[..i] && s.c.buffer == e
    case Sending(i) => i < |e| && s.h.sent == g + e[..i] && s.c.buffer == e
    case Clearing => s.h.sent == g + e && s.c.buffer == e
    case Activating => s.h.sent == g + e && s.c.buffer == []
    case Unlocking => s.h.sent == g + e && s.c.buffer == []
    case Reading => s.h.sent + Held(s.c) == g + e && s.c.buffer == []
    case Done => (s.h.sent + s.c.buffer + Held(s.c) == g + e) || (s.h.sent == [] && s.c.buffer + Held(s.c) == e)
  }

  /** What has been received and what is on its way is what has been sent. */
  predicate Delivered(s: State) {
    && s.h.received <= s.h.sent
    && (s.n.up ==> s.h.received + s.n.commands == s.h.sent)
    && (!s.n.up ==> s.n == Stream(false, [], []))
    && (BeforeConnection(s.c.main) || s.c.main == Done ==> !s.n.up)
    && (BeforeConnection(s.c.main) ==> s.h.lost == 0)
  }

  /** The server's fields are the greeting it has received so far, and the last command after it. */
  predicate Served(v: Server, r: seq<Text>) {
    && v.init == (if |r| < 3 then |r| else 3) && v.active == (|r| >= 3)
    && v.id == (if |r| > 0 then r[0] else "") && v.env == (if |r| > 1 then r[1] else "") && v.cwd == (if |r| > 2 then r[2] else "")
    && v.cmd == (if |r| > 3 then r[|r| - 1] else "")
  }

  /** The replies to the commands `r`: nothing to the greeting, and each later command itself. */
  function RepliesTo(r: seq<Text>): seq<Text> {
    if r == [] then [] else RepliesTo(r[..|r| - 1]) + [if |r| > 3 then r[|r| - 1] else ""]
  }

  /** They are one for each command, and the command itself from the fourth on. */
  lemma {:induction false} RepliesAre(r: seq<Text>)
    ensures |RepliesTo(r)| == |r| && forall i :: 0 <= i < |r| ==> RepliesTo(r)[i] == if i < 3 then "" else r[i]
  {
    if r != [] {
      RepliesAre(r[..|r| - 1]);
    }
  }

  predicate Answered(s: State) {
    && s.h.answered <= RepliesTo(s.h.received)
    && (s.n.up ==> s.h.answered + RepliesOf(s.n.replies) == RepliesTo(s.h.received))
  }

  predicate Inv(s: State) {
    |s.greeting| == 3 && Locked(s.c) && Counted(s) && Ordered(s) && Delivered(s) && Served(s.v, s.h.received) && Answered(s)
  }

  lemma InitialInv(greeting: seq<Text>, script: Text)
    requires |greeting| == 3
    ensures Inv(Initial(greeting, script))
  {
  }

  lemma RepliesOfAppend(d: seq<Down>, x: Down)
    ensures RepliesOf(d + [x]) == RepliesOf(d) + match x case Reply(text) => [text] case Log(_) => []
  {
    assert (d + [x])[..|d|] == d;
  }

  lemma {:induction false} RepliesOfCons(d: seq<Down>)
    requires d != []
    ensures RepliesOf(d) == (match d[0] case Reply(text) => [text] case Log(_) => []) + RepliesOf(d[1..])
  {
    if |d| > 1 {
      RepliesOfCons(d[..|d| - 1]);
      assert d[..|d| - 1][1..] == d[1..][..|d| - 2];
    }
  }

  lemma SendKeeps(s: State, text: Text)
    requires Delivered(s) && !BeforeConnection(s.c.main)
    ensures Delivered(Send(s, text))
  {
  }

  /** The order of what is sent, step by step of the connect loop. */
  lemma MainOrders(s: State)
    requires |s.greeting| == 3 && Ordered(s) && s.c.reader == Idle
    ensures Ordered(MainNext(s))
  {
    match s.c.main
    case Greeting(k) =>
      if k < 3 {
        assert s.greeting[..k] + [s.greeting[k]] == s.greeting[..k + 1];
      } else {
        assert s.greeting[..3] == s.greeting;
        assert s.greeting + s.h.entered[..0] == s.greeting;
      }
    case Counting(i) =>
      if i == |s.h.entered| {
        assert s.h.entered[..i] == s.h.entered;
      }
    case Sending(i) =>
      assert s.h.entered[..i] + [s.h.entered[i]] == s.h.entered[..i + 1];
      assert s.greeting + s.h.entered[..i] + [s.h.entered[i]] == s.greeting + s.h.entered[..i + 1];
    case _ => assert s.h.sent + [] == s.h.sent;
  }

  lemma MainLocks(s: State)
    requires Locked(s.c)
    ensures Locked(MainNext(s).c)
  {
  }

  lemma SendCounts(s: State, text: Text)
    requires s.n.up ==> s.h.lost == 0
    ensures var t := Send(s, text); t.n.replies == s.n.replies && t.c == s.c && |t.n.commands| + t.h.lost == |s.n.commands| + s.h.lost + 1
    ensures var t := Send(s, text); t.n.up ==> t.h.lost == 0
  {
  }

  lemma MainCounts(s: State)
    requires Counted(s) && |s.greeting| == 3 && (s.c.main.Greeting? ==> s.c.main.k <= 3)
    ensures Counted(MainNext(s))
  {
    match s.c.main
    case Greeting(k) => if k < 3 { SendCounts(s, s.greeting[k]); }
    case Sending(i) => if i < |s.c.buffer| { SendCounts(s, s.c.buffer[i]); }
    case _ =>
  }

  lemma MainDelivers(s: State)
    requires Delivered(s) && !BeforeConnection(s.c.main) && s.c.main != Done
    ensures Delivered(MainNext(s))
  {
    match s.c.main
    case Greeting(k) => if k < |s.greeting| { SendKeeps(s, s.greeting[k]); }
    case Sending(i) => if i < |s.c.buffer| { SendKeeps(s, s.c.buffer[i]); }
    case _ =>
  }

  lemma MainKeeps(s: State)
    requires Inv(s)
    ensures Inv(MainNext(s))
  {
    if s.c.main.Connecting? || s.c.main.Sleeping? || s.c.main.Reading? || s.c.main.Done? {
      assert MainNext(s) == s;
    } else {
      MainOrders(s);
      MainLocks(s);
      MainCounts(s);
      MainDelivers(s);
      MainSpares(s);
    }
  }

  lemma MainSpares(s: State)
    ensures var t := MainNext(s);
      && t.greeting == s.greeting && t.v == s.v && t.h.received == s.h.received && t.h.answered == s.h.answered
      && t.n.replies == s.n.replies && t.n.up == s.n.up
  {
  }

  lemma ReaderOrders(s: State)
    requires |s.greeting| == 3 && Ordered(s) && Locked(s.c) && s.c.reader != Idle
    ensures Ordered(ReaderNext(s))
  {
    match s.c.reader
    case HasLine(line) =>
      assert s.h.sent + s.c.buffer + [line] == s.h.sent + (s.c.buffer + [line]);
      assert s.c.buffer + [line] + [] == s.c.buffer + [line];
      assert s.h.sent + (s.c.buffer + [line]) + [] == s.h.sent + (s.c.buffer + [line]);
    case HasCounted(line) =>
      assert s.h.sent + [line] + [] == s.h.sent + [line];
    case Idle =>
  }

  lemma ReaderLocks(s: State)
    requires Locked(s.c)
    ensures Locked(ReaderNext(s).c)
  {
  }

  lemma ReaderCounts(s: State)
    requires Counted(s)
    ensures Counted(ReaderNext(s))
  {
    if s.c.reader.HasCounted? {
      SendCounts(s, s.c.reader.line);
    }
  }

  lemma ReaderDelivers(s: State)
    requires Delivered(s) && Locked(s.c)
    ensures Delivered(ReaderNext(s))
  {
    if s.c.reader.HasCounted? {
      SendKeeps(s, s.c.reader.line);
    }
  }

  lemma ReaderKeeps(s: State)
    requires Inv(s)
    ensures Inv(ReaderNext(s))
  {
    if s.c.reader != Idle {
      ReaderOrders(s);
      ReaderLocks(s);
      ReaderCounts(s);
      ReaderDelivers(s);
      var t := ReaderNext(s);
      assert t.v == s.v && t.h.received == s.h.received && t.h.answered == s.h.answered && t.n.replies == s.n.replies && t.n.up == s.n.up;
    }
  }

  lemma CutKeeps(s: State)
    requires Inv(s) && s.n.up
    ensures Inv(Cut(s))
  {
  }

  lemma ReceivedServes(v: Server, r: seq<Text>, c: Text)
    requires Served(v, r)
    ensures Served(Received(v, c), r + [c])
  {
  }

  lemma RepliesToAppend(r: seq<Text>, c: Text)
    ensures RepliesTo(r + [c]) == RepliesTo(r) + [if |r| >= 3 then c else ""]
  {
    assert (r + [c])[..|r|] == r;
  }

  lemma ReplyFollows(v: Server, r: seq<Text>, c: Text, answered: seq<Text>, replies: seq<Down>)
    requires Served(v, r) && answered + RepliesOf(replies) == RepliesTo(r)
    ensures answered + RepliesOf(replies + [Reply(Received(v, c).cmd)]) == RepliesTo(r + [c])
    ensures |RepliesOf(replies + [Reply(Received(v, c).cmd)])| == |RepliesOf(replies)| + 1
  {
    RepliesOfAppend(replies, Reply(Received(v, c).cmd));
    RepliesToAppend(r, c);
    Assoc(answered, RepliesOf(replies), [Received(v, c).cmd]);
  }

  lemma Assoc<T>(s: seq<T>, t: seq<T>, u: seq<T>)
    ensures s + (t + u) == (s + t) + u
  {
  }

  lemma ServerAnswers(s: State)
    requires Served(s.v, s.h.received) && Answered(s) && s.n.up && s.n.commands != []
    ensures Answered(ServerNext(s)) && |RepliesOf(ServerNext(s).n.replies)| == |RepliesOf(s.n.replies)| + 1
  {
    ReplyFollows(s.v, s.h.received, s.n.commands[0], s.h.answered, s.n.replies);
    RepliesToAppend(s.h.received, s.n.commands[0]);
  }

  lemma ServerDelivers(s: State)
    requires Delivered(s) && s.n.up && s.n.commands != []
    ensures Delivered(ServerNext(s))
  {
    assert s.h.received + [s.n.commands[0]] + s.n.commands[1..] == s.h.received + s.n.commands;
  }

  lemma ServerKeeps(s: State)
    requires Inv(s) && s.n.up && s.n.commands != []
    ensures Inv(ServerNext(s))
  {
    ServerAnswers(s);
    ServerDelivers(s);
    ReceivedServes(s.v, s.h.received, s.n.commands[0]);
    var t := ServerNext(s);
    assert t.c == s.c && t.h.entered == s.h.entered && t.h.sent == s.h.sent && t.h.lost == s.h.lost;
    assert |t.n.commands| == |s.n.commands| - 1;
  }

  lemma ClientKeeps(s: State)
    requires Inv(s) && s.c.main == Reading && s.n.replies != []
    ensures Inv(ClientNext(s))
  {
    RepliesOfCons(s.n.replies);
    assert s.n.up;
    match s.n.replies[0]
    case Reply(text) => assert s.h.answered + ([text] + RepliesOf(s.n.replies[1..])) == s.h.answered + [text] + RepliesOf(s.n.replies[1..]);
    case Log(_) =>
  }

  lemma TypesKeeps(s: State, line: Text)
    requires Inv(s) && s.c.lock == Free && s.c.reader == Idle
    ensures Inv(Step(s, Types(line)))
  {
    assert s.c.buffer + [] == s.c.buffer && s.h.sent + [] == s.h.sent;
    assert s.h.sent + s.c.buffer + [] == s.h.sent + s.c.buffer;
    assert (s.greeting + s.h.entered) + [line] == s.greeting + (s.h.entered + [line]);
  }

  lemma LogKeeps(s: State, text: Text)
    requires Inv(s) && s.n.up
    ensures Inv(Step(s, ServerLogs(text)))
  {
    RepliesOfAppend(s.n.replies, Log(text));
  }

  lemma ConnectKeeps(s: State)
    requires Inv(s) && s.c.main == Connecting
    ensures Inv(Step(s, Connects))
  {
    assert s.c.buffer + [] == s.c.buffer && s.greeting[..0] == [];
  }

  lemma StreamEndKeeps(s: State)
    requires Inv(s)
    ensures Inv(Step(s, StreamEnds))
  {
    assert s.h.sent + [] == s.h.sent;
    assert s.h.sent + [] + [] == s.h.sent;
  }

  lemma CloserKeeps(s: State)
    requires Inv(s)
    ensures Inv(Step(s, CloserStep))
  {
    if s.n.up {
      CutKeeps(s);
    }
  }

  lemma ConnectFailsKeeps(s: State)
    requires Inv(s)
    ensures Inv(Step(s, Fails)) && Inv(Step(s, Denied))
  {
  }

  lemma RelockKeeps(s: State)
    requires Inv(s)
    ensures Inv(Step(s, Relock))
  {
  }

  lemma EndsInputKeeps(s: State)
    requires Inv(s)
    ensures Inv(Step(s, EndsInput))
  {
  }

  /** Every step of every thread keeps the invariant. */
  lemma StepKeeps(s: State, a: Action)
    requires Inv(s)
    ensures Inv(Step(s, a))
  {
    match a
    case Fails => ConnectFailsKeeps(s);
    case Denied => ConnectFailsKeeps(s);
    case Relock => RelockKeeps(s);
    case Connects => if s.c.main == Connecting { ConnectKeeps(s); }
    case MainStep => MainKeeps(s);
    case StreamEnds => StreamEndKeeps(s);
    case Types(line) => if s.c.lock == Free && s.c.reader == Idle { TypesKeeps(s, line); }
    case ReaderStep => ReaderKeeps(s);
    case EndsInput => EndsInputKeeps(s);
    case CloserStep => CloserKeeps(s);
    case ServerStep => if s.n.up && s.n.commands != [] { ServerKeeps(s); }
    case ServerLogs(text) => if s.n.up { LogKeeps(s, text); }
    case ClientReads => if s.c.main == Reading && s.n.replies != [] { ClientKeeps(s); }
    case Drops => if s.n.up { CutKeeps(s); }
  }

  lemma StepGreeting(s: State, a: Action)
    ensures Step(s, a).greeting == s.greeting
  {
  }

  lemma {:induction false} RunKeeps(s: State, actions: seq<Action>)
    requires Inv(s)
    ensures Inv(Run(s, actions)) && Run(s, actions).greeting == s.greeting
  {
    if actions != [] {
      var init := actions[..|actions| - 1];
      RunKeeps(s, init);
      StepKeeps(Run(s, init), actions[|actions| - 1]);
      StepGreeting(Run(s, init), actions[|actions| - 1]);
    }
  }

  /** In every interleaving of the threads the invariant holds. */
  lemma RunInv(greeting: seq<Text>, script: Text, actions: seq<Action>)
    requires |greeting| == 3
    ensures var s := Run(Initial(greeting, script), actions); Inv(s) && s.greeting == greeting
  {
    InitialInv(greeting, script);
    RunKeeps(Initial(greeting, script), actions);
  }

  lemma SentPrefix(s: State)
    requires Inv(s)
    ensures s.h.sent <= s.greeting + s.h.entered
  {
    var g, e := s.greeting, s.h.entered;
    match s.c.main
    case Counting(i) => assert g + e == (g + e[..i]) + e[i..];
    case Sending(i) => assert g + e == (g + e[..i]) + e[i..];
    case Done =>
      if s.h.sent != [] {
        assert g + e == s.h.sent + (s.c.buffer + Held(s.c));
      }
    case _ =>
  }

  /** Whatever the interleaving, the server has received the id, the environment, the directory, the script and the typed
      lines in the order of entry, up to some point, each of them once; and the client has the replies to them in order. */
  lemma ServerReceivesInOrder(greeting: seq<Text>, script: Text, actions: seq<Action>)
    requires |greeting| == 3
    ensures var s := Run(Initial(greeting, script), actions);
      && s.h.received <= greeting + s.h.entered && s.h.answered <= RepliesTo(s.h.received)
      && (s.v.init > 0 ==> s.v.id == greeting[0]) && (s.v.init > 1 ==> s.v.env == greeting[1]) && (s.v.init > 2 ==> s.v.cwd == greeting[2])
      && s.v.active == (|s.h.received| >= 3) && (|s.h.received| > 3 ==> s.v.cmd == s.h.received[|s.h.received| - 1])
  {
    RunInv(greeting, script, actions);
    var s := Run(Initial(greeting, script), actions);
    SentPrefix(s);
    var all := greeting + s.h.entered;
    assert forall i :: 0 <= i < |s.h.received| ==> s.h.received[i] == s.h.sent[i] == all[i];
  }

  /** While the stream is up, `result` is the number of commands and of replies on their way. */
  lemma ResultIsInFlight(greeting: seq<Text>, script: Text, actions: seq<Action>)
    requires |greeting| == 3
    ensures var s := Run(Initial(greeting, script), actions);
      s.n.up ==> s.c.result == Pending(s) + |s.n.commands| + |RepliesOf(s.n.replies)|
  {
    RunInv(greeting, script, actions);
  }

  /** The connect loop is trying, waiting to try again or done for want of input, and the application is up while there is input. */
  ghost predicate Trying(s: State) {
    (s.c.main == Connecting || s.c.main == Sleeping || (s.c.main == Done && !s.c.online)) && s.c.online == (s.c.closer == Open)
  }

  lemma TryingKeeps(s: State, a: Action)
    requires Trying(s) && a != Denied && a != Connects
    ensures Trying(Step(s, a))
  {
  }

  lemma RelockRetries(s: State)
    requires Trying(s) && s.c.main == Sleeping && s.c.lock == Free
    ensures Step(s, Relock).c.main == if s.c.closer == Open then Connecting else Done
  {
  }

  /** As long as it has neither been refused nor got through, the connect loop is trying or waiting to try again, and it gives up
      just when it finds that the input has ended. */
  lemma {:induction false} RetriesUntilEnd(greeting: seq<Text>, script: Text, actions: seq<Action>)
    requires Denied !in actions && Connects !in actions
    ensures var s := Run(Initial(greeting, script), actions);
      && (s.c.main == Connecting || s.c.main == Sleeping || (s.c.main == Done && !s.c.online)) && s.c.online == (s.c.closer == Open)
      && (s.c.main == Sleeping && s.c.lock == Free ==>
            Step(s, Relock).c.main == if s.c.closer == Open then Connecting else Done)
  {
    if actions != [] {
      var init, last := actions[..|actions| - 1], actions[|actions| - 1];
      assert forall a :: a in init ==> a in actions;
      assert last in actions;
      RetriesUntilEnd(greeting, script, init);
      TryingKeeps(Run(Initial(greeting, script), init), last);
    }
    var s := Run(Initial(greeting, script), actions);
    if s.c.main == Sleeping && s.c.lock == Free {
      RelockRetries(s);
    }
  }

  /** An attempt that fails and the next one leave everything as it was, and after the end of input there is no next one. */
  lemma RetryIs(greeting: seq<Text>, script: Text, actions: seq<Action>)
    requires |greeting| == 3
    ensures var s := Run(Initial(greeting, script), actions);
      s.c.main == Connecting ==> Step(Step(s, Fails), Relock) == if s.c.online then s else s.(c := s.c.(lock := Free, main := Done))
  {
    RunInv(greeting, script, actions);
  }

  /** What can still change after the connect loop has come to its end in `s`: lines are taken into the buffer. */
  ghost predicate Over(s: State, t: State) {
    && s.c.main == t.c.main == Done && !t.c.active && !t.c.reader.HasCounted? && t.n == s.n == Stream(false, [], []) && t.v == s.v
    && t.h.(entered := s.h.entered) == s.h && t.c.result == s.c.result && s.c.buffer <= t.c.buffer
  }

  lemma OverKeeps(s: State, t: State, a: Action)
    requires Over(s, t)
    ensures Over(s, Step(t, a))
  {
  }

  lemma {:induction false} OverForever(s: State, more: seq<Action>)
    requires Over(s, s)
    ensures Over(s, Run(s, more))
  {
    if more != [] {
      OverForever(s, more[..|more| - 1]);
      OverKeeps(s, Run(s, more[..|more| - 1]), more[|more| - 1]);
    }
  }

  /** A connection that is refused is the end: whatever is done after that, nothing is ever sent. */
  lemma DeniedEnds(greeting: seq<Text>, script: Text, actions: seq<Action>, more: seq<Action>)
    requires |greeting| == 3
    ensures var s := Run(Initial(greeting, script), actions);
      s.c.main == Connecting ==> var t := Run(Step(s, Denied), more); t.c.main == Done && !t.c.active && t.h.sent == [] && t.h.received == [] && t.c.result == 0
  {
    RunInv(greeting, script, actions);
    var s := Run(Initial(greeting, script), actions);
    if s.c.main == Connecting {
      OverForever(Step(s, Denied), more);
    }
  }

  /** So is the end of a stream that was up: what has been sent, received and answered by then is all there ever will be. */
  lemma StreamEndIsFinal(greeting: seq<Text>, script: Text, actions: seq<Action>, more: seq<Action>)
    requires |greeting| == 3
    ensures var s := Run(Initial(greeting, script), actions);
      s.c.main == Reading && !s.n.up && s.c.lock == Free ==> var t := Run(Step(s, StreamEnds), more);
        t.c.main == Done && !t.c.active && t.h.sent == s.h.sent && t.h.received == s.h.received && t.h.answered == s.h.answered && t.c.result == s.c.result
  {
    RunInv(greeting, script, actions);
    var s := Run(Initial(greeting, script), actions);
    if s.c.main == Reading && !s.n.up && s.c.lock == Free {
      OverForever(Step(s, StreamEnds), more);
    }
  }

  /** When the end of input shuts a stream that is up, everything entered has been received and answered. */
  lemma ShutLosesNothing(greeting: seq<Text>, script: Text, actions: seq<Action>)
    requires |greeting| == 3
    ensures var s := Run(Initial(greeting, script), actions);
      s.c.closer == Waiting && Step(s, CloserStep) != s && s.n.up ==>
        s.h.received == greeting + s.h.entered && s.h.answered == RepliesTo(s.h.received) && s.c.buffer == []
  {
    RunInv(greeting, script, actions);
    var s := Run(Initial(greeting, script), actions);
    if s.c.closer == Waiting && Step(s, CloserStep) != s && s.n.up {
      ShutState(s);
    }
  }

  lemma ShutState(s: State)
    requires Inv(s) && s.c.closer == Waiting && s.n.up && s.c.active && s.c.result == 0
    ensures s.h.received == s.greeting + s.h.entered && s.h.answered == RepliesTo(s.h.received) && s.c.buffer == []
  {
    assert s.h.received + [] == s.h.received && s.h.answered + [] == s.h.answered && s.h.sent + [] == s.h.sent;
  }

  /** The stream has gone down while the end of input waits, with the lock, for replies that are not to come. */
  predicate Stuck(s: State) {
    s.c.closer == Waiting && s.c.active && s.c.result != 0 && s.n == Stream(false, [], [])
    && s.c.lock == ByCloser && s.c.main == Reading && s.c.reader == Idle
  }

  /** From there no step of any thread leads out: the wait does not end. */
  lemma {:induction false} StuckForever(s: State, actions: seq<Action>)
    requires Stuck(s)
    ensures Stuck(Run(s, actions))
  {
    if actions != [] {
      StuckForever(s, actions[..|actions| - 1]);
    }
  }

  function MainN(s: State, n: nat): State {
    if n == 0 then s else MainNext(MainN(s, n - 1))
  }

  /** The connect loop connects and then takes `n` steps on its own. */
  function ConnectAndStep(n: nat): seq<Action> {
    if n == 0 then [Connects] else ConnectAndStep(n - 1) + [MainStep]
  }

  lemma RunSnoc(s: State, actions: seq<Action>, a: Action)
    ensures Run(s, actions + [a]) == Step(Run(s, actions), a)
  {
    assert (actions + [a])[..|actions|] == actions;
  }

  lemma {:induction false} RunConnectAndStep(s: State, n: nat)
    ensures Run(s, ConnectAndStep(n)) == MainN(Step(s, Connects), n)
  {
    if n == 0 {
      RunSnoc(s, [], Connects);
      assert [] + [Connects] == [Connects];
    } else {
      RunConnectAndStep(s, n - 1);
      RunSnoc(s, ConnectAndStep(n - 1), MainStep);
    }
  }

  lemma {:induction false} MainNAdds(s: State, m: nat, n: nat)
    ensures MainN(s, m + n) == MainN(MainN(s, m), n)
  {
    if n > 0 {
      MainNAdds(s, m, n - 1);
    }
  }

  lemma GreetingSteps(s: State, n: nat)
    requires s.c.main == Greeting(0) && |s.greeting| == 3 && s.n.up && n == 4
    ensures var t := MainN(s, n);
      t.n.up && |t.n.commands| == |s.n.commands| + 3 && t.n.replies == s.n.replies && t.c == s.c.(main := Counting(0))
  {
    assert MainN(s, n - 4) == s;
    assert MainN(s, n - 3).c == s.c.(main := Greeting(1));
    assert MainN(s, n - 2).c == s.c.(main := Greeting(2));
    assert MainN(s, n - 1).c == s.c.(main := Greeting(3));
  }

  lemma BufferSteps(s: State, n: nat)
    requires s.c.main == Counting(0) && |s.c.buffer| == 1 && s.n.up && n == 3
    ensures var t := MainN(s, n);
      t.n.up && |t.n.commands| == |s.n.commands| + 1 && t.c == s.c.(main := Clearing, result := s.c.result + 1)
  {
    assert MainN(s, n - 3) == s;
    assert MainN(s, n - 2).c == s.c.(main := Sending(0), result := s.c.result + 1);
    assert MainN(s, n - 1).c == s.c.(main := Counting(1), result := s.c.result + 1);
  }

  lemma LastSteps(s: State, n: nat)
    requires s.c.main == Clearing && n == 3
    ensures MainN(s, n) == s.(c := s.c.(main := Reading, buffer := [], active := true, lock := Free))
  {
    assert MainN(s, n - 3) == s;
    assert MainN(s, n - 2) == s.(c := s.c.(main := Activating, buffer := []));
    assert MainN(s, n - 1) == s.(c := s.c.(main := Unlocking, buffer := [], active := true));
  }

  /** Ten steps after connecting, the greeting and the script are on their way and the lock is free. */
  lemma TenSteps(greeting: seq<Text>, script: Text, a: nat, b: nat)
    requires |greeting| == 3 && a == 4 && b == 3
    ensures var s := MainN(Step(Initial(greeting, script), Connects), a + b + b);
      s.n.up && |s.n.commands| == 4 && s.c == Client(Free, Reading, Idle, Open, true, true, 4, [])
  {
    var s := Step(Initial(greeting, script), Connects);
    GreetingSteps(s, a);
    MainNAdds(s, a, b);
    BufferSteps(MainN(s, a), b);
    MainNAdds(s, a + b, b);
    LastSteps(MainN(s, a + b), b);
  }

  lemma EndAndDrop(s: State)
    requires s.n.up && |s.n.commands| == 4 && s.c == Client(Free, Reading, Idle, Open, true, true, 4, [])
    ensures Stuck(Step(Step(s, EndsInput), Drops))
  {
  }

  /** It comes to that: everything is sent, the input ends, and the stream goes down before the first reply. */
  lemma StuckHappens(greeting: seq<Text>, script: Text)
    requires |greeting| == 3
    ensures Stuck(Run(Initial(greeting, script), ConnectAndStep(10) + [EndsInput] + [Drops]))
  {
    var s := Initial(greeting, script);
    RunConnectAndStep(s, 10);
    TenSteps(greeting, script, 4, 3);
    RunSnoc(s, ConnectAndStep(10), EndsInput);
    RunSnoc(s, ConnectAndStep(10) + [EndsInput], Drops);
    EndAndDrop(MainN(Step(s, Connects), 10));
  }

  /** The stream goes down, with commands or replies on it, when the end of input already waits. */
  predicate DropSticks(s: State, a: Action) {
    a == Drops && s.n.up && s.c.closer == Waiting && s.c.active && (s.n.commands != [] || RepliesOf(s.n.replies) != [])
  }

  /** The input ends when the stream is down, replies are missing, and the connect loop has not noticed yet. */
  predicate EndSticks(s: State, a: Action) {
    a == EndsInput && s.c.lock == Free && s.c.closer == Open && s.c.active && !s.n.up && s.c.result != 0
  }

  /** In those two ways, and in no other, a step of any thread makes the wait one that does not end. */
  lemma StuckExactly(greeting: seq<Text>, script: Text, actions: seq<Action>, a: Action)
    requires |greeting| == 3
    ensures var s := Run(Initial(greeting, script), actions);
      !Stuck(s) ==> (Stuck(Step(s, a)) <==> DropSticks(s, a) || EndSticks(s, a))
  {
    RunInv(greeting, script, actions);
    var s := Run(Initial(greeting, script), actions);
    if !Stuck(s) {
      StuckStep(s, a);
    }
  }

  lemma StuckStep(s: State, a: Action)
    requires Locked(s.c) && Counted(s) && Delivered(s) && !Stuck(s)
    ensures Stuck(Step(s, a)) <==> DropSticks(s, a) || EndSticks(s, a)
  {
  }

  /** Once the stream is down the wait sticks just when something was lost, with the stream or since. */
  lemma StuckWhenLost(greeting: seq<Text>, script: Text, actions: seq<Action>)
    requires |greeting| == 3
    ensures var s := Run(Initial(greeting, script), actions);
      s.c.closer == Waiting && s.c.active && !s.n.up ==> (Stuck(s) <==> s.h.lost > 0)
  {
    RunInv(greeting, script, actions);
  }
}
