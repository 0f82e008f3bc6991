/** The stylist chat panel (components/AIStylist.tsx): opening and closing,
    the lazily created chat session, the input box, and the message log.

    The remote call is asynchronous: sending records one pending reply, and
    a later `Reply` event delivers the settled outcome of some pending call
    (replies carry no identity, so which one settles first does not matter
    to the state). */
module Stylist {
  import opened Types
  import opened Text
  import opened StylistService

  /** A created chat session, identified by the catalogue snapshot it was
      created from. */
  datatype Session = Session(snapshot: seq<Product>)

  /** The remote chat's configuration, fixed when the session is created. */
  function Config(s: Session): (chat: ChatConfig)
    ensures chat.model == ModelName
  {
    CreateStylistChat(s.snapshot)
  }

  /** The panel's state. `products` is the catalogue snapshot currently
      passed in; `pending` counts sends whose reply has not arrived. */
  datatype State = State(
    products: seq<Product>,
    isOpen: bool,
    session: Option<Session>,
    input: string,
    loading: bool,
    log: seq<ChatMessage>,
    pending: nat)

  /** The opening message, with the character sequence the source file
      holds (a checkmark-sparkle emoji stored as three Latin characters). */
  const Greeting: ChatMessage :=
    Message(Model, "Hi! I'm Vi, your personal stylist. Looking for something specific or need outfit inspiration? \U{00E2}\U{0153}\U{00A8}")

  function Initial(products: seq<Product>): (st: State)
    ensures st.log == [Greeting] && st.log[0].role == Model
    ensures !st.isOpen && !st.loading && st.session.None? && st.pending == 0 && st.input == ""
  {
    State(products, false, None, "", false, [Greeting], 0)
  }

  datatype Event =
    | OpenPanel
    | ClosePanel
    | TypeInput(text: string)
    | ProductsChanged(products: seq<Product>)
    | ClickSend
    | KeyDown(key: string)
    | Reply(outcome: CallOutcome)

  /** The effect that runs after a render: an open panel without a session
      gets one, built from the current snapshot; a session is never rebuilt. */
  function SyncSession(st: State): (r: State)
    ensures r.isOpen ==> r.session.Some?
    ensures st.session.Some? ==> r == st
  {
    if st.isOpen && st.session.None? then st.(session := Some(Session(st.products)))
    else st
  }

  /** `handleSend`: a blank input (after trimming) or a missing session
      returns at once; otherwise the untrimmed input is logged as the user's
      message, the box is cleared and the panel waits for a reply. */
  function HandleSend(st: State): (r: State)
    ensures r.session == st.session && r.isOpen == st.isOpen && r.products == st.products
    ensures r != st <==> !IsBlank(st.input) && st.session.Some?
    ensures r != st ==>
      && r.log == st.log + [Message(User, st.input)]
      && r.input == "" && r.loading && r.pending == st.pending + 1
  {
    TrimEmptyIffBlank(st.input);
    if Trim(st.input) == "" || st.session.None? then st
    else st.(input := "", log := st.log + [Message(User, st.input)], loading := true, pending := st.pending + 1)
  }

  /** The `disabled` expression of the send button: the input is blank or
      a reply is awaited. */
  function SendDisabled(st: State): (disabled: bool)
    ensures disabled <==> IsBlank(st.input) || st.loading
  {
    TrimEmptyIffBlank(st.input);
    Trim(st.input) == "" || st.loading
  }

  const EnterKey: string := "Enter"

  /** The state change of one event, before the effect runs. */
  function React(st: State, e: Event): (r: State)
    ensures r.session == st.session
    ensures |st.log| <= |r.log| <= |st.log| + 1 && r.log[..|st.log|] == st.log
  {
    match e
    case OpenPanel => st.(isOpen := true)
    case ClosePanel => st.(isOpen := false)
    case TypeInput(text) => st.(input := text)
    case ProductsChanged(products) => st.(products := products)
    case ClickSend => if SendDisabled(st) then st else HandleSend(st)
    case KeyDown(key) => if key == EnterKey then HandleSend(st) else st
    case Reply(outcome) =>
      if st.pending == 0 then st
      else st.(loading := false, log := st.log + [Message(Model, ReplyText(outcome))], pending := st.pending - 1)
  }

  /** One event followed by the session effect. */
  function Step(st: State, e: Event): (r: State)
    ensures |st.log| <= |r.log| <= |st.log| + 1 && r.log[..|st.log|] == st.log
    ensures st.session.Some? ==> r.session == st.session
    ensures r.isOpen ==> r.session.Some?
  {
    SyncSession(React(st, e))
  }

  // ---------------------------------------------------------------------
  // The session
  // ---------------------------------------------------------------------

  /** The session is created only by opening a panel that has none, from
      the snapshot of that moment, and once created it is never replaced. */
  lemma SessionCreatedOnceOnOpen(st: State, e: Event)
    ensures st.session.Some? ==> Step(st, e).session == st.session
    ensures st.session.None? && Step(st, e).session.Some? ==>
      Step(st, e).isOpen && Step(st, e).session == Some(Session(Step(st, e).products))
    ensures Step(st, e).isOpen ==> Step(st, e).session.Some?
  {
  }

  /** A changed snapshot does not reach an existing session. */
  lemma LaterProductsIgnored(st: State, products: seq<Product>)
    requires st.session.Some?
    ensures Step(st, ProductsChanged(products)).session == st.session
    ensures Step(st, ProductsChanged(products)).products == products
  {
  }

  // ---------------------------------------------------------------------
  // Sending
  // ---------------------------------------------------------------------

  /** A send that the guard rejects changes nothing. An accepted one logs
      the untrimmed input as the user's message, clears the box, shows the
      loading indicator, and adds one pending reply. */
  lemma HandleSendEffect(st: State)
    ensures Trim(st.input) == "" || st.session.None? ==> HandleSend(st) == st
    ensures Trim(st.input) != "" && st.session.Some? ==>
      var r := HandleSend(st);
      && r.log == st.log + [ChatMessage(User, st.input, None)]
      && r.input == "" && r.loading && r.pending == st.pending + 1
      && r.session == st.session && r.isOpen == st.isOpen
  {
  }

  /** A message is accepted exactly when its trimmed text is not blank,
      whatever the whitespace around it. */
  lemma SendAcceptedIffNotBlank(st: State)
    requires st.session.Some?
    ensures HandleSend(st) != st <==> !IsBlank(st.input)
  {
    TrimEmptyIffBlank(st.input);
    if !IsBlank(st.input) {
      assert |HandleSend(st).log| == |st.log| + 1;
    }
  }

  /** Enter runs the send handler itself, with no further check. */
  lemma EnterRunsHandleSend(st: State)
    requires st.session.Some?
    ensures Step(st, KeyDown(EnterKey)) == HandleSend(st)
  {
    assert React(st, KeyDown(EnterKey)) == HandleSend(st);
  }

  /** The button does nothing while a reply is awaited, but the Enter key
      sends anyway: a second message can be in flight. */
  lemma EnterKeyIgnoresLoading(st: State)
    requires st.loading && st.session.Some? && Trim(st.input) != ""
    ensures Step(st, ClickSend) == st
    ensures Step(st, KeyDown(EnterKey)).pending == st.pending + 1
  {
    EnterRunsHandleSend(st);
  }

  /** With two replies outstanding, the first to arrive hides the loading
      indicator although the other is still awaited. */
  lemma FirstReplyHidesLoading(st: State, outcome: CallOutcome)
    requires st.pending >= 2
    ensures !Step(st, Reply(outcome)).loading
    ensures Step(st, Reply(outcome)).pending > 0
  {
  }

  /** A reply hides the loading indicator and logs exactly one model
      message, carrying the service's text. */
  lemma ReplyEffect(st: State, outcome: CallOutcome)
    requires st.pending > 0
    ensures
      var r := Step(st, Reply(outcome));
      && !r.loading && r.pending == st.pending - 1
      && r.log == st.log + [ChatMessage(Model, ReplyText(outcome), None)]
      && r.input == st.input
  {
  }

  // ---------------------------------------------------------------------
  // The log
  // ---------------------------------------------------------------------

  /** The number of messages with the given role. */
  function CountRole(log: seq<ChatMessage>, role: Role): (n: nat)
    ensures n <= |log|
  {
    if |log| == 0 then 0
    else CountRole(log[..|log| - 1], role) + (if log[|log| - 1].role == role then 1 else 0)
  }

  lemma CountRoleAppend(log: seq<ChatMessage>, m: ChatMessage, role: Role)
    ensures CountRole(log + [m], role) == CountRole(log, role) + (if m.role == role then 1 else 0)
  {
    assert (log + [m])[..|log|] == log;
  }

  /** What holds in every reachable state: the greeting stays first, an
      open panel has a session, the loading indicator implies a pending
      reply, and every user message is answered or pending (the greeting
      being the one unprompted model message). */
  predicate Valid(st: State) {
    && |st.log| > 0 && st.log[0] == Greeting
    && (st.isOpen ==> st.session.Some?)
    && (st.loading ==> st.pending > 0)
    && CountRole(st.log, User) + 1 == CountRole(st.log, Model) + st.pending
  }

  lemma InitialValid(products: seq<Product>)
    ensures Valid(Initial(products))
  {
    assert [Greeting][..0] == [];
  }

  /** Every event keeps the state valid, and the log only ever grows at the
      end, by at most one message. */
  lemma StepKeepsValid(st: State, e: Event)
    requires Valid(st)
    ensures Valid(Step(st, e))
    ensures |st.log| <= |Step(st, e).log| <= |st.log| + 1
    ensures Step(st, e).log[..|st.log|] == st.log
  {
    var r := Step(st, e);
    if r.log != st.log {
      assert r.log[..|st.log|] == st.log;
      var m := r.log[|st.log|];
      assert r.log == st.log + [m];
      CountRoleAppend(st.log, m, User);
      CountRoleAppend(st.log, m, Model);
    }
  }

  /** Running a sequence of events. */
  function Run(st: State, events: seq<Event>): State
    decreases |events|
  {
    if |events| == 0 then st else Run(Step(st, events[0]), events[1..])
  }

  /** From the initial state, whatever happens, the log starts with the
      greeting, user messages never outnumber model messages, and when
      nothing is pending every user message has its reply. */
  lemma {:induction false} RunKeepsValid(st: State, events: seq<Event>)
    requires Valid(st)
    ensures Valid(Run(st, events))
    ensures |st.log| <= |Run(st, events).log|
    ensures Run(st, events).log[..|st.log|] == st.log
    ensures CountRole(Run(st, events).log, User) < CountRole(Run(st, events).log, Model) + Run(st, events).pending
    decreases |events|
  {
    if |events| > 0 {
      var next := Step(st, events[0]);
      StepKeepsValid(st, events[0]);
      RunKeepsValid(next, events[1..]);
      var last := Run(next, events[1..]);
      assert Run(st, events) == last;
      assert last.log[..|next.log|] == next.log;
      assert last.log[..|st.log|] == next.log[..|st.log|];
    }
  }

  /** As written, two messages typed and sent with Enter in quick
      succession are both in flight at once. */
  lemma EnterSendsTwoAtOnce(products: seq<Product>)
    ensures
      var shown := Step(Initial(products), OpenPanel);
      var first := Step(Step(shown, TypeInput("a")), KeyDown(EnterKey));
      var second := Step(Step(first, TypeInput("b")), KeyDown(EnterKey));
      && first.loading && SendDisabled(Step(first, TypeInput("b")))
      && second.pending == 2 && !OneInFlight(second)
  {
    var shown := Step(Initial(products), OpenPanel);
    assert shown.session.Some? && shown.pending == 0;
    var typedA := Step(shown, TypeInput("a"));
    assert typedA == shown.(input := "a");
    assert Trim("a") == "a" by {
      assert !IsJsWhitespace('a');
      assert TrimStart("a") == "a";
    }
    var first := Step(typedA, KeyDown(EnterKey));
    EnterRunsHandleSend(typedA);
    assert first.loading && first.pending == 1 && first.session.Some?;
    var typedB := Step(first, TypeInput("b"));
    assert typedB == first.(input := "b");
    assert Trim("b") == "b" by {
      assert !IsJsWhitespace('b');
      assert TrimStart("b") == "b";
    }
    EnterRunsHandleSend(typedB);
  }

  // ---------------------------------------------------------------------
  // Corrected behaviour: the Enter key obeys the button's guard
  // ---------------------------------------------------------------------

  /** The step with the Enter key doing exactly what the enabled button
      does, so that a send is never issued while a reply is awaited. */
  function StepGuarded(st: State, e: Event): State {
    match e
    case KeyDown(key) => if key == EnterKey then Step(st, ClickSend) else Step(st, e)
    case _ => Step(st, e)
  }

  /** At most one reply is awaited, and the loading indicator shows exactly
      while one is. */
  predicate OneInFlight(st: State) {
    Valid(st) && st.pending <= 1 && (st.loading <==> st.pending == 1)
  }

  /** With the guarded Enter key, at most one message is ever in flight and
      the loading indicator tracks it exactly. */
  lemma GuardedKeepsOneInFlight(st: State, e: Event)
    requires OneInFlight(st)
    ensures OneInFlight(StepGuarded(st, e))
  {
    match e
    case KeyDown(key) =>
      if key == EnterKey {
        StepKeepsValid(st, ClickSend);
      } else {
        StepKeepsValid(st, e);
      }
    case _ =>
      StepKeepsValid(st, e);
  }
}
