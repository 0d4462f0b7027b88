/** The two sequential flows of cmd/filetransfer/main.go, `send` and `receive`,
    as traces of protocol events. Everything the flows learn from the network,
    the terminal or the file system is an input (`SenderEnv`, `ReceiverEnv`):
    whether a receiver was found, whether dialing and the handshake worked, the
    line the operator typed, what the header read returned, whether the
    destination file could be created. The flows themselves, the order of their
    steps and their fatal exits, are modelled as the source has them. */
module Transfer {
  import opened Bytes
  import opened Framing
  import opened Gate

  /** The fatal conditions of the two flows (each ends the process). */
  datatype Failure =
    | NoReceiver      // locatePeer found nobody
    | DialFailed      // tls.Dial failed
    | PhraseFailed    // exporting keying material or building the mnemonic failed
    | Rejected        // the operator declined the phrase
    | NameTooLong     // only in the corrected sender: the name does not fit the header
    | OpenFailed      // os.Open of the file to send failed
    | CopyFailed      // io.Copy of the body to the connection failed
    | CertFailed      // certificate generation or parsing failed
    | ListenFailed    // tls.Listen failed
    | AcceptFailed    // Accept failed
    | ReadFailed      // the header read returned an error
    | ShortHeader     // the header read returned fewer than MaxNameSize bytes
    | CreateFailed    // os.Create of the destination file failed

  datatype Outcome = Completed | Fatal(reason: Failure) | Panicked

  /** What each side observably does, in order. */
  datatype Event =
    | Dialed                      // sender: TLS connection to the receiver is open
    | Accepted                    // receiver: a sender's connection is accepted
    | PhraseShown                 // either side: verification phrase displayed
    | HeaderSent(header: seq<Byte>)
    | BodySent
    | FileCreated(name: GoString) // receiver: file `name` created in the destination folder
    | BodyReceived

  datatype Run = Run(events: seq<Event>, outcome: Outcome)

  /** What the sender's environment answers at each step. */
  datatype SenderEnv = SenderEnv(
    peerFound: bool, dialOk: bool, phraseOk: bool, answer: GoString, openOk: bool, copyOk: bool)

  /** Result of `conn.Read` into the 100-byte header buffer: the bytes read
      (never more than the buffer holds) and whether an error came back. */
  datatype ReadResult = ReadResult(data: seq<Byte>, err: bool)
  type HeaderRead = r: ReadResult | |r.data| <= MaxNameSize witness ReadResult([], false)

  /** What the receiver's environment answers at each step. */
  datatype ReceiverEnv = ReceiverEnv(
    certOk: bool, listenOk: bool, acceptOk: bool, phraseOk: bool, answer: GoString,
    read: HeaderRead, createOk: bool)

  /** `send`, as written: find the receiver, dial, show the phrase and ask the
      operator, then frame the base name; a name of 100 bytes or more makes the
      header loop panic only now, after the connection is open. */
  function Send(filePath: GoString, env: SenderEnv): (r: Run)
    ensures r.outcome == Panicked <==>
      env.peerFound && env.dialOk && env.phraseOk && Proceeds(env.answer) &&
      |BaseName(filePath)| >= MaxNameSize
    ensures r.outcome == Completed <==>
      env.peerFound && env.dialOk && env.phraseOk && Proceeds(env.answer) &&
      |BaseName(filePath)| < MaxNameSize && env.openOk && env.copyOk
    ensures r.outcome == Completed ==>
      |BaseName(filePath)| < MaxNameSize &&
      r.events == [Dialed, PhraseShown, HeaderSent(Header(BaseName(filePath))), BodySent]
  {
    if !env.peerFound then Run([], Fatal(NoReceiver))
    else if !env.dialOk then Run([], Fatal(DialFailed))
    else if !env.phraseOk then Run([Dialed], Fatal(PhraseFailed))
    else if !Proceeds(env.answer) then Run([Dialed, PhraseShown], Fatal(Rejected))
    else
      var name := BaseName(filePath);
      if |name| >= MaxNameSize then Run([Dialed, PhraseShown], Panicked)
      else
        var sent := [Dialed, PhraseShown, HeaderSent(Header(name))];
        if !env.openOk then Run(sent, Fatal(OpenFailed))
        else if !env.copyOk then Run(sent, Fatal(CopyFailed))
        else Run(sent + [BodySent], Completed)
  }

  /** `send` with the evidently intended length check first: a name that does
      not fit the header is refused before any network activity. */
  function SendChecked(filePath: GoString, env: SenderEnv): (r: Run)
    ensures r.outcome != Panicked
    ensures r.outcome == Fatal(NameTooLong) <==> |BaseName(filePath)| >= MaxNameSize
    ensures r.outcome == Fatal(NameTooLong) ==> r.events == []
  {
    if |BaseName(filePath)| >= MaxNameSize then Run([], Fatal(NameTooLong))
    else Send(filePath, env)
  }

  /** `receive`: listen, accept one connection, show the phrase and ask the
      operator, read the header, reject a short or failed read, decode the
      name, create the file and copy the body into it (a failing body copy is
      ignored by the source). */
  function Receive(env: ReceiverEnv): (r: Run)
    ensures r.outcome != Panicked
    ensures r.outcome == Completed <==>
      env.certOk && env.listenOk && env.acceptOk && env.phraseOk && Proceeds(env.answer) &&
      !env.read.err && |env.read.data| == MaxNameSize && env.createOk
    ensures r.outcome == Completed ==>
      r.events == [Accepted, PhraseShown, FileCreated(DecodeName(env.read.data)), BodyReceived]
  {
    if !env.certOk then Run([], Fatal(CertFailed))
    else if !env.listenOk then Run([], Fatal(ListenFailed))
    else if !env.acceptOk then Run([], Fatal(AcceptFailed))
    else if !env.phraseOk then Run([Accepted], Fatal(PhraseFailed))
    else if !Proceeds(env.answer) then Run([Accepted, PhraseShown], Fatal(Rejected))
    else if env.read.err then Run([Accepted, PhraseShown], Fatal(ReadFailed))
    else if |env.read.data| < MaxNameSize then Run([Accepted, PhraseShown], Fatal(ShortHeader))
    else
      var name := DecodeName(env.read.data);
      if !env.createOk then Run([Accepted, PhraseShown], Fatal(CreateFailed))
      else Run([Accepted, PhraseShown, FileCreated(name), BodyReceived], Completed)
  }

  predicate SendsData(events: seq<Event>)
  {
    exists i | 0 <= i < |events| :: events[i].HeaderSent? || events[i].BodySent?
  }

  predicate CreatesFile(events: seq<Event>)
  {
    exists i | 0 <= i < |events| :: events[i].FileCreated?
  }

  // ---------------------------------------------------------------------------
  // Sender
  // ---------------------------------------------------------------------------

  /** The sender writes file data only after the connection is open, the phrase
      was shown and the operator confirmed it; a declined phrase sends nothing. */
  lemma SendGatedByOperator(filePath: GoString, env: SenderEnv)
    ensures SendsData(Send(filePath, env).events) ==>
      env.peerFound && env.dialOk && env.phraseOk && Proceeds(env.answer)
    ensures SendsData(Send(filePath, env).events) ==>
      Send(filePath, env).events[..2] == [Dialed, PhraseShown]
  {
  }

  /** The header on the wire is the framing of the file's base name, which then
      has at most 99 bytes, and it is the only header sent. */
  lemma SentHeaderIsFramed(filePath: GoString, env: SenderEnv, h: seq<Byte>)
    requires HeaderSent(h) in Send(filePath, env).events
    ensures |BaseName(filePath)| < MaxNameSize
    ensures h == Header(BaseName(filePath))
  {
  }

  /** As written, a base name of 100 bytes or more is noticed only by the panic
      of the header loop, after the connection was dialed and the phrase shown. */
  lemma LongNamePanicsAfterDial(filePath: GoString, env: SenderEnv)
    requires |BaseName(filePath)| >= MaxNameSize
    requires env.peerFound && env.dialOk && env.phraseOk && Proceeds(env.answer)
    ensures Send(filePath, env) == Run([Dialed, PhraseShown], Panicked)
  {
  }

  /** The corrected sender refuses a long name before any network event, never
      panics, and otherwise behaves exactly as the sender as written. */
  lemma CheckedSendRejectsEarly(filePath: GoString, env: SenderEnv)
    ensures |BaseName(filePath)| >= MaxNameSize ==>
      SendChecked(filePath, env) == Run([], Fatal(NameTooLong))
    ensures |BaseName(filePath)| < MaxNameSize ==>
      SendChecked(filePath, env) == Send(filePath, env)
    ensures SendChecked(filePath, env).outcome != Panicked
  {
  }

  // ---------------------------------------------------------------------------
  // Receiver
  // ---------------------------------------------------------------------------

  /** A destination file is created only after the operator confirmed and a
      complete header arrived without error; it is named by decoding that header. */
  lemma FileCreatedOnlyAfterFullHeader(env: ReceiverEnv, name: GoString)
    requires FileCreated(name) in Receive(env).events
    ensures Proceeds(env.answer)
    ensures !env.read.err && |env.read.data| == MaxNameSize
    ensures name == DecodeName(env.read.data)
  {
  }

  /** A header read that fails or returns fewer than 100 bytes is fatal before
      the destination file is created. */
  lemma ShortHeaderCreatesNothing(env: ReceiverEnv)
    requires env.certOk && env.listenOk && env.acceptOk && env.phraseOk && Proceeds(env.answer)
    requires env.read.err || |env.read.data| < MaxNameSize
    ensures Receive(env).outcome == Fatal(if env.read.err then ReadFailed else ShortHeader)
    ensures !CreatesFile(Receive(env).events)
  {
  }

  /** A declined phrase on the receiving side creates no file. */
  lemma ReceiveGatedByOperator(env: ReceiverEnv)
    requires !Proceeds(env.answer)
    ensures !CreatesFile(Receive(env).events)
    ensures Receive(env).outcome.Fatal?
  {
  }

  // ---------------------------------------------------------------------------
  // End to end
  // ---------------------------------------------------------------------------

  /** A header sent for a base name of 7-bit ASCII bytes, received whole by a
      receiver whose steps succeed, creates a file with exactly that name. (A
      path with a zero byte never reaches the header: `os.Stat` refuses it.) */
  lemma AsciiNameArrives(filePath: GoString, senv: SenderEnv, h: seq<Byte>, renv: ReceiverEnv)
    requires HeaderSent(h) in Send(filePath, senv).events
    requires renv.read == ReadResult(h, false)
    requires renv.certOk && renv.listenOk && renv.acceptOk && renv.phraseOk
    requires Proceeds(renv.answer) && renv.createOk
    requires IsAscii(BaseName(filePath)) && Nul !in BaseName(filePath)
    ensures Receive(renv) ==
      Run([Accepted, PhraseShown, FileCreated(BaseName(filePath)), BodyReceived], Completed)
  {
    SentHeaderIsFramed(filePath, senv, h);
    AsciiRoundTrip(BaseName(filePath));
  }

  /** The receiver does no filtering of the decoded name before joining it to
      the destination folder: a crafted header naming "../x" creates "../x". */
  lemma TraversalNameIsKept(env: ReceiverEnv)
    requires env.certOk && env.listenOk && env.acceptOk && env.phraseOk
    requires Proceeds(env.answer) && env.createOk
    requires env.read == ReadResult(Header([0x2E, 0x2E, Slash, 0x78]), false)
    ensures FileCreated([0x2E, 0x2E, Slash, 0x78]) in Receive(env).events
  {
    AsciiRoundTrip([0x2E, 0x2E, Slash, 0x78]);
  }
}
