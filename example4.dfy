/**
 * The line-oriented TCP demo: one session per connected client reads what
 * the client sends, picks a command from the first word and answers; HELLO
 * greets the other connected clients. Sockets and threads are not modelled:
 * a client is an identity, each write to a stream is a Delivery appended to
 * a log, and a session consumes a given sequence of reads.
 */
module Example4 {
  import opened Text

  /** A connected TcpClient, compared by reference as List.Remove and Equals do. */
  type ClientId = nat

  /** Size of the receive buffer: one read returns at most this many bytes. */
  const BufferSize := 256

  const Welcome := "Hello! Type HELP if you are lost."
  const Prompt := "\n\r> "
  const Farewell := "Bye!"
  const Confused := "What are you yammering about?"
  const HelpLines: seq<string> := [
    "List of commands that I know:",
    "  BYE          - Disconnect from server",
    "  HELLO [name] - Say hello to all other connected users",
    "  HELP         - Print this help message"
  ]

  function Greeting(name: string): string {
    "** Greetings from " + name + "! **"
  }

  // ---------------------------------------------------------------------------
  // SendMessage
  // ---------------------------------------------------------------------------

  /** What one SendMessage call writes, and to whose stream. */
  datatype Delivery = Delivery(to: ClientId, bytes: seq<byte>)

  /** The text SendMessage encodes: the message, then CRLF when `newline` is set. */
  function Framed(msg: string, newline: bool): string {
    msg + (if newline then "\r\n" else "")
  }

  function Send(to: ClientId, msg: string, newline: bool): Delivery {
    Delivery(to, Encode(Framed(msg, newline)))
  }

  /**
   * The bytes SendMessage writes decode back to the message followed by CRLF
   * when `newline` is set, and to the message alone otherwise.
   */
  lemma SendMessageFraming(to: ClientId, msg: string, newline: bool)
    requires AllAscii(msg)
    ensures newline ==> Decode(Send(to, msg, newline).bytes) == msg + "\r\n"
    ensures !newline ==> Decode(Send(to, msg, newline).bytes) == msg
    ensures |Send(to, msg, newline).bytes| == |msg| + if newline then 2 else 0
  {
    DecodeEncode(Framed(msg, newline));
  }

  // ---------------------------------------------------------------------------
  // The client list
  // ---------------------------------------------------------------------------

  predicate NoDuplicates(s: seq<ClientId>) {
    forall i, j :: 0 <= i < j < |s| ==> s[i] != s[j]
  }

  /** The clients other than `sender`, in list order: the recipients of a greeting. */
  function Others(clients: seq<ClientId>, sender: ClientId): (rs: seq<ClientId>)
    ensures forall c :: c in rs <==> c in clients && c != sender
    decreases |clients|
  {
    if clients == [] then []
    else (if clients[0] != sender then [clients[0]] else []) + Others(clients[1..], sender)
  }

  /** Every client other than the sender is a recipient as often as it is in the list. */
  lemma {:induction false} OthersCount(clients: seq<ClientId>, sender: ClientId)
    ensures multiset(Others(clients, sender)) == multiset(clients)[sender := 0]
    decreases |clients|
  {
    if clients != [] {
      OthersCount(clients[1..], sender);
      assert clients == [clients[0]] + clients[1..];
    }
  }

  /** Extending the list by one client extends the recipients by it unless it is the sender. */
  lemma {:induction false} OthersSnoc(clients: seq<ClientId>, c: ClientId, sender: ClientId)
    ensures Others(clients + [c], sender) == Others(clients, sender) + (if c != sender then [c] else [])
    decreases |clients|
  {
    if clients == [] {
      assert [] + [c] == [c];
    } else {
      assert (clients + [c])[1..] == clients[1..] + [c];
      OthersSnoc(clients[1..], c, sender);
    }
  }

  /** List.Remove: drops the first occurrence, if there is one. */
  function RemoveFirst(clients: seq<ClientId>, c: ClientId): (r: seq<ClientId>)
    ensures c !in clients ==> r == clients
    ensures c in clients ==> |r| == |clients| - 1
    decreases |clients|
  {
    if clients == [] then []
    else if clients[0] == c then clients[1..]
    else [clients[0]] + RemoveFirst(clients[1..], c)
  }

  /** Remove takes away one copy of the client and keeps every other entry. */
  lemma {:induction false} RemoveFirstMultiset(clients: seq<ClientId>, c: ClientId)
    ensures multiset(RemoveFirst(clients, c)) == multiset(clients) - multiset{c}
    decreases |clients|
  {
    if clients != [] {
      assert clients == [clients[0]] + clients[1..];
      if clients[0] != c {
        RemoveFirstMultiset(clients[1..], c);
      }
    }
  }

  /** List.IndexOf: the position of the first occurrence of a listed client. */
  function FirstIndex(clients: seq<ClientId>, c: ClientId): (k: nat)
    requires c in clients
    ensures k < |clients| && clients[k] == c
    ensures forall i :: 0 <= i < k ==> clients[i] != c
    decreases |clients|
  {
    if clients[0] == c then 0 else 1 + FirstIndex(clients[1..], c)
  }

  /**
   * Remove drops exactly the first occurrence of the client and keeps the
   * other entries in their order.
   */
  lemma {:induction false} RemoveFirstKeepsOrder(clients: seq<ClientId>, c: ClientId)
    requires c in clients
    ensures RemoveFirst(clients, c) == clients[..FirstIndex(clients, c)] + clients[FirstIndex(clients, c) + 1..]
    decreases |clients|
  {
    if clients[0] != c {
      var tail := clients[1..];
      RemoveFirstKeepsOrder(tail, c);
      var k := FirstIndex(tail, c);
      assert clients[..k + 1] == [clients[0]] + tail[..k];
      assert clients[k + 2..] == tail[k + 1..];
    }
  }

  /** In a list without duplicates, Remove takes the client out completely and keeps the list free of duplicates. */
  lemma {:induction false} RemoveFirstNoDuplicates(clients: seq<ClientId>, c: ClientId)
    requires NoDuplicates(clients)
    ensures forall x :: x in RemoveFirst(clients, c) <==> x in clients && x != c
    ensures NoDuplicates(RemoveFirst(clients, c))
    decreases |clients|
  {
    if clients != [] {
      assert clients[0] !in clients[1..];
      if clients[0] == c {
        assert forall x :: x in clients <==> x == c || x in clients[1..];
      } else {
        RemoveFirstNoDuplicates(clients[1..], c);
        var rest := RemoveFirst(clients[1..], c);
        assert forall x :: x in clients <==> x == clients[0] || x in clients[1..];
        NoDuplicatesCons(clients[0], rest);
      }
    }
  }

  lemma NoDuplicatesCons(x: ClientId, s: seq<ClientId>)
    requires x !in s && NoDuplicates(s)
    ensures NoDuplicates([x] + s)
  {
    var t := [x] + s;
    forall i, j | 0 <= i < j < |t| ensures t[i] != t[j] {
      if i > 0 {
        assert t[i] == s[i - 1] && t[j] == s[j - 1];
      } else {
        assert t[j] == s[j - 1];
      }
    }
  }

  // ---------------------------------------------------------------------------
  // One read: the command decision table
  // ---------------------------------------------------------------------------

  datatype Command = Bye | Help | Hello | Unknown

  /** The command is the first word upper-cased. */
  function CommandOf(word: string): Command {
    var cmd := Upper(word);
    if cmd == "BYE" then Bye
    else if cmd == "HELP" then Help
    else if cmd == "HELLO" then Hello
    else Unknown
  }

  /** What the read loop does after handling a read. */
  datatype Outcome =
    | Continue   // keep reading
    | Stop       // `break` out of the read loop (BYE)
    | Fault      // an exception escaped to the session's outer catch

  datatype Reply = Reply(sends: seq<Delivery>, outcome: Outcome)

  /** The received text: the bytes decoded as ASCII and trimmed. */
  function Received(data: seq<byte>): string {
    Trim(Decode(data))
  }

  function Words(data: seq<byte>): seq<string> {
    Split(Received(data), ' ')
  }

  function PromptTo(c: ClientId): Delivery { Send(c, Prompt, false) }

  function HelpReply(c: ClientId): seq<Delivery> {
    [Send(c, HelpLines[0], true), Send(c, HelpLines[1], true),
     Send(c, HelpLines[2], true), Send(c, HelpLines[3], true)]
  }

  /** One greeting to each recipient, in order. */
  function Greetings(recipients: seq<ClientId>, name: string): (ds: seq<Delivery>)
    ensures |ds| == |recipients|
  {
    seq(|recipients|, i requires 0 <= i < |recipients| => Send(recipients[i], Greeting(name), true))
  }

  /**
   * The answer to a text of three or more characters: the command is picked
   * by the first word; HELLO without a name indexes past the end of the word
   * array as soon as the broadcast loop meets another client.
   */
  function Answer(words: seq<string>, sender: ClientId, clients: seq<ClientId>): Reply
    requires |words| >= 1
  {
    match CommandOf(words[0])
    case Bye => Reply([Send(sender, Farewell, true)], Stop)
    case Help => Reply(HelpReply(sender) + [PromptTo(sender)], Continue)
    case Hello =>
      var recipients := Others(clients, sender);
      if |words| < 2 && recipients != [] then Reply([], Fault)
      else
        var name := if |words| < 2 then "" else words[1];
        Reply(Greetings(recipients, name) + [PromptTo(sender)], Continue)
    case Unknown => Reply([Send(sender, Confused, true), PromptTo(sender)], Continue)
  }

  /** The answer to a received text: one shorter than three characters gets only the prompt. */
  function Dispatch(text: string, sender: ClientId, clients: seq<ClientId>): Reply {
    if |text| < 3 then Reply([PromptTo(sender)], Continue)
    else Answer(Split(text, ' '), sender, clients)
  }

  /**
   * Everything the session of `sender` writes in answer to one read of
   * `data`, given the shared client list, and whether its read loop goes on.
   * An empty read is ignored.
   */
  function HandleRead(data: seq<byte>, sender: ClientId, clients: seq<ClientId>): Reply
    requires |data| <= BufferSize
  {
    if |data| == 0 then Reply([], Continue)
    else Dispatch(Received(data), sender, clients)
  }

  /** The command words are matched in any mixture of upper and lower case. */
  lemma CommandSpelling(word: string)
    ensures CommandOf(word) == Bye <==> SpellsIgnoringCase(word, "BYE")
    ensures CommandOf(word) == Help <==> SpellsIgnoringCase(word, "HELP")
    ensures CommandOf(word) == Hello <==> SpellsIgnoringCase(word, "HELLO")
  {
    UpperMatchesIgnoringCase(word, "BYE");
    UpperMatchesIgnoringCase(word, "HELP");
    UpperMatchesIgnoringCase(word, "HELLO");
  }

  lemma ByeInAnyCase()
    ensures CommandOf("bye") == CommandOf("Bye") == CommandOf("BYE") == Bye
  {
    CommandSpelling("bye");
    CommandSpelling("Bye");
    CommandSpelling("BYE");
  }

  /** The answer depends on the first word only through its upper-case form. */
  lemma AnswerIgnoresCommandCase(w1: seq<string>, w2: seq<string>, sender: ClientId, clients: seq<ClientId>)
    requires |w1| == |w2| >= 1 && w1[1..] == w2[1..] && Upper(w1[0]) == Upper(w2[0])
    ensures Answer(w1, sender, clients) == Answer(w2, sender, clients)
  {
    if |w1| >= 2 {
      assert w1[1] == w1[1..][0] == w2[1..][0] == w2[1];
    }
  }

  /**
   * Two reads whose words differ only in the case of the first word get the
   * same answer.
   */
  lemma HandleReadIgnoresCommandCase(d1: seq<byte>, d2: seq<byte>, sender: ClientId, clients: seq<ClientId>)
    requires 0 < |d1| <= BufferSize && 0 < |d2| <= BufferSize
    requires |Words(d1)| == |Words(d2)| && Words(d1)[1..] == Words(d2)[1..]
    requires Upper(Words(d1)[0]) == Upper(Words(d2)[0])
    ensures HandleRead(d1, sender, clients) == HandleRead(d2, sender, clients)
  {
    var t1, t2 := Received(d1), Received(d2);
    assert |t1| == |t2| by {
      JoinSplit(t1, ' ');
      JoinSplit(t2, ' ');
      assert |Words(d1)[0]| == |Upper(Words(d1)[0])| == |Words(d2)[0]|;
      JoinSameShape(Words(d1), Words(d2), ' ');
    }
    AnswerIgnoresCommandCase(Words(d1), Words(d2), sender, clients);
  }

  /** A trimmed text shorter than three characters dispatches nothing; only the prompt is sent. */
  lemma ShortInputOnlyPrompts(data: seq<byte>, sender: ClientId, clients: seq<ClientId>)
    requires 0 < |data| <= BufferSize && |Received(data)| < 3
    ensures HandleRead(data, sender, clients) == Reply([PromptTo(sender)], Continue)
  {
  }

  /** BYE answers exactly "Bye!" and CRLF, ends the read loop and sends no prompt. */
  lemma ByeReply(data: seq<byte>, sender: ClientId, clients: seq<ClientId>)
    requires 0 < |data| <= BufferSize && CommandOf(Words(data)[0]) == Bye
    ensures HandleRead(data, sender, clients) == Reply([Send(sender, "Bye!", true)], Stop)
  {
    assert |Upper(Words(data)[0])| == 3;
  }

  /** HELP answers the four help lines in order, then the prompt. */
  lemma HelpReplyLines(data: seq<byte>, sender: ClientId, clients: seq<ClientId>)
    requires 0 < |data| <= BufferSize && CommandOf(Words(data)[0]) == Help
    ensures var r := HandleRead(data, sender, clients);
      r.outcome == Continue && |r.sends| == 5 &&
      (forall i :: 0 <= i < 4 ==> r.sends[i] == Send(sender, HelpLines[i], true)) &&
      r.sends[4] == PromptTo(sender)
  {
    assert |Upper(Words(data)[0])| == 4;
  }

  /** Any other command of three or more characters answers the fixed complaint, then the prompt. */
  lemma UnknownReply(data: seq<byte>, sender: ClientId, clients: seq<ClientId>)
    requires 0 < |data| <= BufferSize && |Received(data)| >= 3
    requires CommandOf(Words(data)[0]) == Unknown
    ensures HandleRead(data, sender, clients) ==
      Reply([Send(sender, "What are you yammering about?", true), PromptTo(sender)], Continue)
  {
  }

  function Recipients(sends: seq<Delivery>): (to: seq<ClientId>)
    ensures |to| == |sends|
  {
    seq(|sends|, i requires 0 <= i < |sends| => sends[i].to)
  }

  /**
   * HELLO with a name sends the greeting once to each copy of every other
   * client in the list, in list order, and the sender receives only its
   * prompt.
   */
  lemma HelloReply(data: seq<byte>, sender: ClientId, clients: seq<ClientId>)
    requires 0 < |data| <= BufferSize && CommandOf(Words(data)[0]) == Hello && |Words(data)| >= 2
    ensures var r := HandleRead(data, sender, clients);
      r.outcome == Continue && |r.sends| >= 1 &&
      (forall i :: 0 <= i < |r.sends| - 1 ==> r.sends[i] == Send(r.sends[i].to, Greeting(Words(data)[1]), true)) &&
      r.sends[|r.sends| - 1] == PromptTo(sender) &&
      Recipients(r.sends) == Others(clients, sender) + [sender] &&
      multiset(Recipients(r.sends)) == multiset(clients)[sender := 1]
  {
    assert |Upper(Words(data)[0])| == 5;
    var r := HandleRead(data, sender, clients);
    var rs := Others(clients, sender);
    assert r.sends == Greetings(rs, Words(data)[1]) + [PromptTo(sender)];
    assert Recipients(r.sends) == rs + [sender];
    OthersCount(clients, sender);
  }

  /**
   * HELLO without a name fails exactly when another client is in the list,
   * having sent nothing; otherwise it sends only the prompt.
   */
  lemma HelloWithoutName(data: seq<byte>, sender: ClientId, clients: seq<ClientId>)
    requires 0 < |data| <= BufferSize && CommandOf(Words(data)[0]) == Hello && ' ' !in Received(data)
    ensures var r := HandleRead(data, sender, clients);
      (r.outcome == Fault <==> exists c :: c in clients && c != sender) &&
      (r.outcome == Fault ==> r.sends == []) &&
      (r.outcome != Fault ==> r.sends == [PromptTo(sender)])
  {
    assert |Upper(Words(data)[0])| == 5;
    var rs := Others(clients, sender);
    if rs != [] {
      assert rs[0] in clients && rs[0] != sender;
    }
  }

  /**
   * Every dispatched read except BYE ends with the prompt; BYE writes only
   * the farewell; a fault writes nothing.
   */
  lemma PromptUnlessBye(data: seq<byte>, sender: ClientId, clients: seq<ClientId>)
    requires 0 < |data| <= BufferSize
    ensures var r := HandleRead(data, sender, clients);
      (r.outcome == Continue ==> |r.sends| >= 1 && r.sends[|r.sends| - 1] == PromptTo(sender)) &&
      (r.outcome == Stop <==> |Received(data)| >= 3 && CommandOf(Words(data)[0]) == Bye) &&
      (r.outcome == Stop ==> r.sends == [Send(sender, Farewell, true)]) &&
      (r.outcome == Fault ==> r.sends == [])
  {
  }

  /** Only HELLO writes to other clients, and what it writes is the greeting. */
  lemma OnlyHelloReachesOthers(data: seq<byte>, sender: ClientId, clients: seq<ClientId>, i: nat)
    requires 0 < |data| <= BufferSize
    requires i < |HandleRead(data, sender, clients).sends|
    requires HandleRead(data, sender, clients).sends[i].to != sender
    ensures CommandOf(Words(data)[0]) == Hello && |Words(data)| >= 2
    ensures HandleRead(data, sender, clients).sends[i].to in clients
    ensures HandleRead(data, sender, clients).sends[i] ==
      Send(HandleRead(data, sender, clients).sends[i].to, Greeting(Words(data)[1]), true)
  {
    var r := HandleRead(data, sender, clients);
    var rs := Others(clients, sender);
    if |Words(data)| < 2 && CommandOf(Words(data)[0]) == Hello && rs != [] {
    } else if CommandOf(Words(data)[0]) == Hello && |Received(data)| >= 3 {
      var name := if |Words(data)| < 2 then "" else Words(data)[1];
      assert r.sends == Greetings(rs, name) + [PromptTo(sender)];
      assert i < |rs|;
      assert r.sends[i].to == rs[i];
    }
  }

  // ---------------------------------------------------------------------------
  // A whole session
  // ---------------------------------------------------------------------------

  /** How a session's read loop ended. */
  datatype Ending =
    | Disconnected  // the client went away: the loop condition turned false
    | Quit          // the client said BYE
    | Crashed       // an exception ended the session before the list was updated

  datatype Transcript = Transcript(sends: seq<Delivery>, ending: Ending)

  predicate ValidReads(chunks: seq<seq<byte>>) {
    forall i :: 0 <= i < |chunks| ==> |chunks[i]| <= BufferSize
  }

  /** The reply the session gives to each read, given the client list. */
  function Replies(client: ClientId, chunks: seq<seq<byte>>, clients: seq<ClientId>): (rs: seq<Reply>)
    requires ValidReads(chunks)
    ensures |rs| == |chunks|
  {
    seq(|chunks|, i requires 0 <= i < |chunks| => HandleRead(chunks[i], client, clients))
  }

  /** Replies take effect one after the other until one of them ends the read loop. */
  function Play(replies: seq<Reply>): Transcript
    decreases |replies|
  {
    if replies == [] then Transcript([], Disconnected)
    else
      var r := replies[0];
      match r.outcome
      case Stop => Transcript(r.sends, Quit)
      case Fault => Transcript(r.sends, Crashed)
      case Continue =>
        var rest := Play(replies[1..]);
        Transcript(r.sends + rest.sends, rest.ending)
  }

  /** What the session writes after its opening lines, read by read, until its loop ends. */
  function Conversation(client: ClientId, chunks: seq<seq<byte>>, clients: seq<ClientId>): Transcript
    requires ValidReads(chunks)
  {
    Play(Replies(client, chunks, clients))
  }

  /** The greeting and the first prompt every session starts with. */
  function Opening(client: ClientId): seq<Delivery> {
    [Send(client, Welcome, true), PromptTo(client)]
  }

  /** The client list once the session is over: the client leaves it unless the session crashed. */
  function ClientsAfter(clients: seq<ClientId>, client: ClientId, ending: Ending): seq<ClientId> {
    if ending == Crashed then clients else RemoveFirst(clients, client)
  }

  /** Once a reply has ended the read loop, the replies after it have no effect. */
  lemma {:induction false} PlayStopsAtTheEnd(replies: seq<Reply>, more: seq<Reply>)
    requires Play(replies).ending != Disconnected
    ensures Play(replies + more) == Play(replies)
    decreases |replies|
  {
    assert (replies + more)[0] == replies[0];
    if replies[0].outcome == Continue {
      assert (replies + more)[1..] == replies[1..] + more;
      PlayStopsAtTheEnd(replies[1..], more);
    }
  }

  /** While the read loop goes on, playing more replies appends their effect. */
  lemma {:induction false} PlayAppend(replies: seq<Reply>, more: seq<Reply>)
    requires Play(replies).ending == Disconnected
    ensures Play(replies + more) == Transcript(Play(replies).sends + Play(more).sends, Play(more).ending)
    decreases |replies|
  {
    if replies == [] {
      assert replies + more == more;
    } else {
      assert (replies + more)[0] == replies[0];
      assert (replies + more)[1..] == replies[1..] + more;
      PlayAppend(replies[1..], more);
    }
  }

  /** One step of the read loop: the reply at `i` takes effect, then the rest unless it ended the loop. */
  lemma PlayStep(replies: seq<Reply>, i: nat)
    requires i < |replies|
    ensures replies[i].outcome == Stop ==> Play(replies[i..]) == Transcript(replies[i].sends, Quit)
    ensures replies[i].outcome == Fault ==> Play(replies[i..]) == Transcript(replies[i].sends, Crashed)
    ensures replies[i].outcome == Continue ==>
      Play(replies[i..]) == Transcript(replies[i].sends + Play(replies[i + 1..]).sends, Play(replies[i + 1..]).ending)
  {
    assert replies[i..][0] == replies[i] && replies[i..][1..] == replies[i + 1..];
  }

  lemma ConcatAssociative(a: seq<Delivery>, b: seq<Delivery>, c: seq<Delivery>)
    ensures (a + b) + c == a + (b + c)
  {
  }

  lemma ValidReadsAppend(chunks: seq<seq<byte>>, more: seq<seq<byte>>)
    requires ValidReads(chunks) && ValidReads(more)
    ensures ValidReads(chunks + more)
  {
    forall i | 0 <= i < |chunks + more| ensures |(chunks + more)[i]| <= BufferSize {
      if i >= |chunks| { assert (chunks + more)[i] == more[i - |chunks|]; }
    }
  }

  lemma RepliesAppend(client: ClientId, chunks: seq<seq<byte>>, more: seq<seq<byte>>, clients: seq<ClientId>)
    requires ValidReads(chunks) && ValidReads(more)
    ensures ValidReads(chunks + more)
    ensures Replies(client, chunks + more, clients) == Replies(client, chunks, clients) + Replies(client, more, clients)
  {
    ValidReadsAppend(chunks, more);
    var rs := Replies(client, chunks + more, clients);
    forall i | 0 <= i < |rs|
      ensures rs[i] == (Replies(client, chunks, clients) + Replies(client, more, clients))[i]
    {
      if i >= |chunks| { assert (chunks + more)[i] == more[i - |chunks|]; }
    }
  }

  /** Once the read loop has ended, later reads are never looked at. */
  lemma NothingAfterTheEnd(client: ClientId, chunks: seq<seq<byte>>, more: seq<seq<byte>>, clients: seq<ClientId>)
    requires ValidReads(chunks) && ValidReads(more)
    requires Conversation(client, chunks, clients).ending != Disconnected
    ensures ValidReads(chunks + more)
    ensures Conversation(client, chunks + more, clients) == Conversation(client, chunks, clients)
  {
    RepliesAppend(client, chunks, more, clients);
    PlayStopsAtTheEnd(Replies(client, chunks, clients), Replies(client, more, clients));
  }

  /** A session that is still reading after `chunks` goes on exactly as a fresh one on `more`. */
  lemma ConversationAppend(client: ClientId, chunks: seq<seq<byte>>, more: seq<seq<byte>>, clients: seq<ClientId>)
    requires ValidReads(chunks) && ValidReads(more)
    requires Conversation(client, chunks, clients).ending == Disconnected
    ensures ValidReads(chunks + more)
    ensures Conversation(client, chunks + more, clients) ==
      Transcript(Conversation(client, chunks, clients).sends + Conversation(client, more, clients).sends,
                 Conversation(client, more, clients).ending)
  {
    RepliesAppend(client, chunks, more, clients);
    PlayAppend(Replies(client, chunks, clients), Replies(client, more, clients));
  }

  /** A session that ends normally takes its client out of a duplicate-free list and leaves the others. */
  lemma SessionEndRemovesClient(clients: seq<ClientId>, client: ClientId, ending: Ending)
    requires NoDuplicates(clients) && ending != Crashed
    ensures forall c :: c in ClientsAfter(clients, client, ending) <==> c in clients && c != client
    ensures NoDuplicates(ClientsAfter(clients, client, ending))
  {
    RemoveFirstNoDuplicates(clients, client);
  }

  // ---------------------------------------------------------------------------
  // The server: the shared client list and the session loop
  // ---------------------------------------------------------------------------

  class ControlSystem {
    /** `_clients`: every accepted client whose session has not ended normally. */
    var clients: seq<ClientId>
    /** Every stream write so far, in order. */
    var written: seq<Delivery>

    ghost predicate Valid()
      reads this
    {
      NoDuplicates(clients)
    }

    /** InitializeSystem: an empty client list. */
    constructor ()
      ensures Valid() && clients == [] && written == []
    {
      clients := [];
      written := [];
    }

    /** An accepted connection joins the list; each TcpClient is a new object, so not yet in it. */
    method Accept(client: ClientId)
      requires Valid() && client !in clients
      modifies this
      ensures Valid()
      ensures clients == old(clients) + [client] && written == old(written)
    {
      clients := clients + [client];
    }

    /** Frames a message with an optional CRLF and writes its ASCII bytes to a client's stream. */
    method SendMessage(to: ClientId, msg: string, newline: bool)
      modifies this`written
      ensures written == old(written) + [Send(to, msg, newline)]
    {
      var crlf := if newline then "\r\n" else "";
      var bytes := Encode(msg + crlf);
      written := written + [Delivery(to, bytes)];
    }

    /**
     * The HELLO loop over the client list. The name is `words[1]`, looked up
     * once per client other than the sender, so with no name the first such
     * client ends the loop with an exception before anything is written.
     */
    method Greet(sender: ClientId, words: seq<string>) returns (faulted: bool)
      modifies this`written
      ensures faulted <==> |words| < 2 && Others(clients, sender) != []
      ensures written == old(written) +
        if faulted then [] else Greetings(Others(clients, sender), if |words| < 2 then "" else words[1])
    {
      var name := if |words| < 2 then "" else words[1];
      for k := 0 to |clients|
        invariant |words| < 2 ==> Others(clients[..k], sender) == []
        invariant written == old(written) + Greetings(Others(clients[..k], sender), name)
      {
        var c := clients[k];
        assert clients[..k + 1] == clients[..k] + [c];
        OthersSnoc(clients[..k], c, sender);
        if c != sender {
          if |words| < 2 {
            assert c in Others(clients, sender);
            return true;
          }
          SendMessage(c, Greeting(words[1]), true);
          assert Greetings(Others(clients[..k + 1], sender), name) ==
            Greetings(Others(clients[..k], sender), name) + [Send(c, Greeting(name), true)];
        }
      }
      assert clients[..|clients|] == clients;
      faulted := false;
    }

    /** The answer to a text of three or more characters, split into words. */
    method Respond(client: ClientId, words: seq<string>) returns (outcome: Outcome)
      requires |words| >= 1
      modifies this`written
      ensures outcome == Answer(words, client, clients).outcome
      ensures written == old(written) + Answer(words, client, clients).sends
    {
      var cmd := Upper(words[0]);
      if cmd == "BYE" {
        SendMessage(client, Farewell, true);
        return Stop;
      } else if cmd == "HELP" {
        SendMessage(client, HelpLines[0], true);
        SendMessage(client, HelpLines[1], true);
        SendMessage(client, HelpLines[2], true);
        SendMessage(client, HelpLines[3], true);
      } else if cmd == "HELLO" {
        var faulted := Greet(client, words);
        if faulted {
          return Fault;
        }
      } else {
        SendMessage(client, Confused, true);
      }
      SendMessage(client, Prompt, false);
      outcome := Continue;
    }

    /**
     * The body of the read loop for one read: decode, trim and split the
     * text, answer it unless it is shorter than three characters, and
     * prompt again unless the read ended the loop.
     */
    method HandleChunk(client: ClientId, data: seq<byte>) returns (outcome: Outcome)
      requires |data| <= BufferSize
      modifies this`written
      ensures outcome == HandleRead(data, client, clients).outcome
      ensures written == old(written) + HandleRead(data, client, clients).sends
    {
      outcome := Continue;
      if |data| > 0 {
        var text := Trim(Decode(data));
        var words := Split(text, ' ');
        if |text| < 3 {
          SendMessage(client, Prompt, false);
        } else {
          outcome := Respond(client, words);
        }
      }
    }

    /**
     * ClientSession: the opening lines, then one read after another until
     * the client leaves, says BYE or the session crashes. A session that
     * ends normally removes its client from the list; a crashed one leaves
     * it there.
     */
    method ClientSession(client: ClientId, chunks: seq<seq<byte>>) returns (ending: Ending)
      requires Valid() && ValidReads(chunks)
      modifies this
      ensures Valid()
      ensures ending == Conversation(client, chunks, old(clients)).ending
      ensures written == old(written) + Opening(client) + Conversation(client, chunks, old(clients)).sends
      ensures clients == ClientsAfter(old(clients), client, ending)
    {
      SendMessage(client, Welcome, true);
      SendMessage(client, Prompt, false);
      ghost var replies := Replies(client, chunks, clients);
      ending := Disconnected;
      var i := 0;
      while i < |chunks|
        invariant 0 <= i <= |chunks|
        invariant clients == old(clients)
        invariant written + Play(replies[i..]).sends == old(written) + Opening(client) + Play(replies).sends
        invariant Play(replies[i..]).ending == Play(replies).ending
      {
        ghost var before := written;
        PlayStep(replies, i);
        assert replies[i] == HandleRead(chunks[i], client, clients);
        var outcome := HandleChunk(client, chunks[i]);
        if outcome == Stop {
          ending := Quit;
          break;
        } else if outcome == Fault {
          return Crashed;
        }
        ConcatAssociative(before, replies[i].sends, Play(replies[i + 1..]).sends);
        i := i + 1;
      }
      RemoveFirstNoDuplicates(clients, client);
      clients := RemoveFirst(clients, client);
    }
  }
}
