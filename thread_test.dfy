/**
 * The Test1 timer client of the threading test: Initialize stores a name and
 * a tick period and creates the timer, Start and Stop switch counting on and
 * off, and every timer tick (DoWork) advances the counter while running and
 * raises a TimerEvent carrying "<name>: counting <counter>".
 *
 * The timer itself is not modelled: each tick is an explicit DoWork call.
 * The pure functions below (Initialized, Started, Stopped, Ticked) state what
 * each call does to the object's fields; the class Test1 is proved to follow
 * them, and the lemmas describe runs of several calls.
 */
module ThreadTest {
  import opened Text

  // ---------------------------------------------------------------------
  // Integer widths
  // ---------------------------------------------------------------------

  /** C# short, the type of Initialize's frequency argument. */
  newtype short = x: int | -0x8000 <= x < 0x8000

  const MinLong: int := -0x8000_0000_0000_0000
  const MaxLong: int := 0x7FFF_FFFF_FFFF_FFFF
  const LongModulus: int := 0x1_0000_0000_0000_0000

  /** The values of a C# long, the type of the counter and the frequency. */
  predicate IsLong(x: int) {
    MinLong <= x <= MaxLong
  }

  /**
   * `_counter++` on a long in unchecked context: one more, modulo 2^64,
   * within the long range.
   */
  function Increment(x: int): (r: int)
    requires IsLong(x)
    ensures IsLong(r)
    ensures (r - (x + 1)) % LongModulus == 0
  {
    if x == MaxLong then MinLong else x + 1
  }

  // ---------------------------------------------------------------------
  // Event arguments
  // ---------------------------------------------------------------------

  const NoMessage: string := "No message."

  /** The argument of a TimerEvent. */
  class TimerEventArgs {
    var message: string

    /** The default message. */
    constructor ()
      ensures message == NoMessage
    {
      message := NoMessage;
    }

    /** The given message, verbatim. */
    constructor WithMessage(msg: string)
      ensures message == msg
    {
      message := msg;
    }
  }

  /** String.Format("{0}: counting {1}", name, counter). */
  function EventMessage(name: string, counter: int): string {
    name + ": counting " + FormatInt(counter)
  }

  /**
   * The message starts with the name and ends with the canonical decimal
   * rendering of the counter.
   */
  lemma EventMessageParts(name: string, counter: int)
    ensures var msg := EventMessage(name, counter);
      |msg| > |name| + 11 &&
      msg[..|name|] == name &&
      msg[|name|..|name| + 11] == ": counting " &&
      Value(msg[|name| + 11..]) == counter &&
      IsCanonicalNumeral(msg[|name| + 11..])
  {
    var msg := EventMessage(name, counter);
    assert msg[|name| + 11..] == FormatInt(counter);
    ValueOfFormatInt(counter);
    FormatIntIsCanonical(counter);
  }

  // ---------------------------------------------------------------------
  // The state machine as values
  // ---------------------------------------------------------------------

  /**
   * The fields of a Test1 object.  A name never assigned is null in the
   * source and is formatted as the empty text, which is what it is here;
   * hasTimer says whether Initialize has created the timer.
   */
  datatype Test1State = Test1State(
    name: string, frequency: int, counter: int, running: bool, hasTimer: bool)

  /** A freshly constructed object. */
  function Initial(): Test1State {
    Test1State("", 0, 0, false, false)
  }

  predicate ValidState(s: Test1State) {
    IsLong(s.counter) && IsLong(s.frequency)
  }

  /** Initialize: store the name and period, create a (stopped) timer. */
  function Initialized(s: Test1State, name: string, frequency: short): Test1State {
    s.(name := name, frequency := frequency as int, hasTimer := true)
  }

  /**
   * Start: only when not running, switch on and reset the counter.  The
   * fields are updated before the timer is touched, so a Start before
   * Initialize updates them and then fails on the missing timer.
   */
  function Started(s: Test1State): Test1State {
    if s.running then s else s.(running := true, counter := 0)
  }

  predicate StartFails(s: Test1State) {
    !s.running && !s.hasTimer
  }

  /** Stop: only when running, switch off; the counter keeps its value. */
  function Stopped(s: Test1State): Test1State {
    if s.running then s.(running := false) else s
  }

  predicate StopFails(s: Test1State) {
    s.running && !s.hasTimer
  }

  /** DoWork: only when running, advance the counter. */
  function Ticked(s: Test1State): Test1State
    requires ValidState(s)
  {
    if s.running then s.(counter := Increment(s.counter)) else s
  }

  datatype Option<T> = None | Some(value: T)

  /** The message of the event a tick raises when a handler is subscribed. */
  function TickEvent(s: Test1State, hasHandler: bool): Option<string>
    requires ValidState(s)
  {
    if s.running && hasHandler then Some(EventMessage(s.name, Ticked(s).counter)) else None
  }

  datatype Call = Initialize(name: string, frequency: short) | Start | Stop | DoWork

  function Apply(s: Test1State, call: Call): (t: Test1State)
    requires ValidState(s)
    ensures ValidState(t)
  {
    match call
    case Initialize(name, frequency) => Initialized(s, name, frequency)
    case Start => Started(s)
    case Stop => Stopped(s)
    case DoWork => Ticked(s)
  }

  /** Whether the call throws (Start or Stop on an object never initialized). */
  predicate Fails(s: Test1State, call: Call) {
    match call
    case Start => StartFails(s)
    case Stop => StopFails(s)
    case _ => false
  }

  /** The state after a sequence of calls; an exception ends the sequence. */
  function Run(s: Test1State, calls: seq<Call>): Test1State
    requires ValidState(s)
    decreases |calls|
  {
    if calls == [] then s
    else if Fails(s, calls[0]) then Apply(s, calls[0])
    else Run(Apply(s, calls[0]), calls[1..])
  }

  /** n timer ticks. */
  function Ticks(n: nat): (calls: seq<Call>)
    ensures |calls| == n && forall i :: 0 <= i < n ==> calls[i] == DoWork
  {
    if n == 0 then [] else [DoWork] + Ticks(n - 1)
  }

  // ---------------------------------------------------------------------
  // Lemmas about runs
  // ---------------------------------------------------------------------

  /** Every state reached keeps the counter and the frequency within a long. */
  lemma {:induction false} RunKeepsLong(s: Test1State, calls: seq<Call>)
    requires ValidState(s)
    ensures ValidState(Run(s, calls))
    decreases |calls|
  {
    if calls != [] && !Fails(s, calls[0]) {
      RunKeepsLong(Apply(s, calls[0]), calls[1..]);
    }
  }

  /** Ticks while stopped change nothing. */
  lemma {:induction false} TicksWhileStopped(s: Test1State, n: nat)
    requires ValidState(s) && !s.running
    ensures Run(s, Ticks(n)) == s
    decreases n
  {
    if n > 0 {
      assert Ticks(n)[1..] == Ticks(n - 1);
      TicksWhileStopped(s, n - 1);
    }
  }

  /**
   * n ticks while running add n to the counter, as long as it does not pass
   * the largest long, and change nothing else.
   */
  lemma {:induction false} TicksCount(s: Test1State, n: nat)
    requires ValidState(s) && s.running && s.counter + n <= MaxLong
    ensures Run(s, Ticks(n)) == s.(counter := s.counter + n)
    decreases n
  {
    if n > 0 {
      assert Ticks(n)[1..] == Ticks(n - 1);
      var t := s.(counter := s.counter + 1);
      assert Apply(s, DoWork) == t;
      TicksCount(t, n - 1);
    }
  }

  /** A tick at the largest long wraps the counter round to the smallest. */
  lemma TickWrapsAround(s: Test1State)
    requires ValidState(s) && s.running && s.counter == MaxLong
    ensures Run(s, Ticks(1)).counter == MinLong
  {
    assert Ticks(1)[1..] == [];
  }

  /**
   * After Initialize and Start on an object that is not running, k ticks
   * leave it running and counting k under the given name and period.
   */
  lemma CountsFromStart(s: Test1State, name: string, frequency: short, k: nat)
    requires ValidState(s) && !s.running && k <= MaxLong
    ensures Run(s, [Initialize(name, frequency), Start] + Ticks(k))
         == Test1State(name, frequency as int, k, true, true)
  {
    var calls := [Initialize(name, frequency), Start] + Ticks(k);
    var u := Initialized(s, name, frequency);
    var v := Test1State(name, frequency as int, 0, true, true);
    assert calls[0] == Initialize(name, frequency) && calls[1..] == [Start] + Ticks(k);
    assert ([Start] + Ticks(k))[1..] == Ticks(k);
    assert Run(s, calls) == Run(u, [Start] + Ticks(k));
    assert Run(u, [Start] + Ticks(k)) == Run(v, Ticks(k));
    TicksCount(v, k);
  }

  /** Stop followed by Start on an initialized object restarts the count from zero. */
  lemma RestartResets(s: Test1State)
    requires ValidState(s) && s.hasTimer
    ensures Run(s, [Stop, Start]) == s.(running := true, counter := 0)
  {
    assert [Stop, Start][1..] == [Start];
  }

  /**
   * Start and Stop are each idempotent, and Start while running or Stop
   * while stopped leaves the state as it was.
   */
  lemma StartStopIdempotent(s: Test1State)
    ensures Started(Started(s)) == Started(s)
    ensures Stopped(Stopped(s)) == Stopped(s)
    ensures s.running ==> Started(s) == s
    ensures !s.running ==> Stopped(s) == s
  {
  }

  // ---------------------------------------------------------------------
  // The object
  // ---------------------------------------------------------------------

  class Test1 {
    var name: string
    var frequency: int
    var counter: int
    var running: bool
    var hasTimer: bool

    function State(): Test1State
      reads this
    {
      Test1State(name, frequency, counter, running, hasTimer)
    }

    ghost predicate Valid()
      reads this
    {
      ValidState(State())
    }

    constructor ()
      ensures Valid() && State() == Initial()
    {
      name := "";
      frequency := 0;
      counter := 0;
      running := false;
      hasTimer := false;
    }

    /** Store the name and period and create the timer; counting does not start. */
    method Initialize(name: string, frequency: short)
      requires Valid()
      modifies this
      ensures Valid() && State() == Initialized(old(State()), name, frequency)
      ensures this.name == name && this.frequency == frequency as int
      ensures running == old(running) && counter == old(counter)
    {
      this.name := name;
      this.frequency := frequency as int;
      hasTimer := true;
    }

    /** Start counting from zero unless already running; fails before Initialize. */
    method Start() returns (failed: bool)
      requires Valid()
      modifies this
      ensures Valid() && State() == Started(old(State()))
      ensures failed <==> StartFails(old(State()))
      ensures !old(running) ==> running && counter == 0
      ensures old(running) ==> State() == old(State())
    {
      failed := false;
      if !running {
        running := true;
        counter := 0;
        failed := !hasTimer;
      }
    }

    /** Stop counting if running; the counter keeps its value. */
    method Stop() returns (failed: bool)
      requires Valid()
      modifies this
      ensures Valid() && State() == Stopped(old(State()))
      ensures failed <==> StopFails(old(State()))
      ensures old(running) ==> !running && counter == old(counter)
      ensures !old(running) ==> State() == old(State())
    {
      failed := false;
      if running {
        running := false;
        failed := !hasTimer;
      }
    }

    /**
     * One timer tick: while running, advance the counter and, when a handler
     * is subscribed, raise an event whose message has the new counter.
     */
    method DoWork(hasHandler: bool) returns (event: TimerEventArgs?)
      requires Valid()
      modifies this
      ensures Valid() && State() == Ticked(old(State()))
      ensures old(running) ==> counter == Increment(old(counter))
      ensures !old(running) ==> State() == old(State())
      ensures event == null <==> TickEvent(old(State()), hasHandler) == None
      ensures event != null ==>
        fresh(event) &&
        TickEvent(old(State()), hasHandler) == Some(event.message) &&
        event.message == EventMessage(name, counter)
    {
      event := null;
      if running {
        counter := Increment(counter);
        if hasHandler {
          event := new TimerEventArgs.WithMessage(EventMessage(name, counter));
        }
      }
    }
  }
}
