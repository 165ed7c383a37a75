/** The app shell of App.tsx: two state cells, `appState` and `stats`, overwritten by
    four handlers, and the rendering that decides which screen is shown and therefore
    which handler a user action or a detected laugh can reach. */
module App {
  import opened Types
  import Ledger

  /** What can reach a handler: the welcome screen's start button, the show's finish
      button, a laugh reported by the show, the receipt's restart button. */
  datatype UiEvent = StartClicked | FinishClicked | LaughReported | RestartClicked

  /** The screen rendered below the header for each state. */
  datatype Screen = WelcomeScreen | ShowtimeScreen | ReceiptScreen | NoScreen

  function Rendered(state: AppState): (screen: Screen)
    ensures screen == NoScreen <==> state == Permissions
  {
    match state
    case Idle => WelcomeScreen
    case Showtime => ShowtimeScreen
    case Finished => ReceiptScreen
    case Permissions => NoScreen
  }

  /** Whether the screen rendered in `state` holds the callback that `ev` invokes:
      nothing is wired while no screen is rendered, and laugh events reach the ledger
      in the Showtime state and in no other. */
  predicate Wired(state: AppState, ev: UiEvent)
    ensures Wired(state, ev) ==> state != Permissions
    ensures ev == LaughReported ==> (Wired(state, ev) <==> state == Showtime)
  {
    match ev
    case StartClicked => Rendered(state) == WelcomeScreen
    case FinishClicked => Rendered(state) == ShowtimeScreen
    case LaughReported => Rendered(state) == ShowtimeScreen
    case RestartClicked => Rendered(state) == ReceiptScreen
  }

  /** The two state cells of the app as one value. */
  datatype Model = Model(appState: AppState, stats: LaughStats)

  /** The startup value of the two cells: the welcome screen over a zero ledger with the
      configured prices, a state that satisfies the reachability invariant. */
  function Start(price: nat, cap: nat): (m: Model)
    ensures m.appState == Idle && Reachable(m, price, cap)
    ensures m.stats.count == 0 && m.stats.totalDue == 0
  {
    Model(Idle, Ledger.Initial(price, cap))
  }

  /** What each handler does to the two cells when it runs. */
  function Handle(m: Model, ev: UiEvent, price: nat, cap: nat): (r: Model)
    ensures ev == RestartClicked ==> r == Start(price, cap)
    ensures ev != RestartClicked ==> (r.stats.count >= m.stats.count
                                      && r.stats.pricePerLaugh == m.stats.pricePerLaugh
                                      && r.stats.maxCharge == m.stats.maxCharge)
    ensures Ledger.Consistent(m.stats) ==> Ledger.Consistent(r.stats)
  {
    match ev
    case StartClicked => m.(appState := Showtime)
    case FinishClicked => m.(appState := Finished)
    case LaughReported => m.(stats := Ledger.ApplyLaugh(m.stats))
    case RestartClicked => Model(Idle, Ledger.Initial(price, cap))
  }

  /** An event changes the cells only if the rendered screen holds its handler; one
      delivered event keeps the reachability invariant and either stays on the current
      screen or moves to the next one in the cycle. */
  function Deliver(m: Model, ev: UiEvent, price: nat, cap: nat): (r: Model)
    ensures r.appState == m.appState || r.appState == Successor(m.appState)
    ensures Reachable(m, price, cap) ==> Reachable(r, price, cap)
    ensures r.stats != m.stats ==> (ev == LaughReported && m.appState == Showtime) || ev == RestartClicked
  {
    if Wired(m.appState, ev) then Handle(m, ev, price, cap) else m
  }

  /** A run of events delivered one after the other: from a reachable state it ends in
      a reachable state, and from the unused `Permissions` state nothing changes. */
  function Replay(m: Model, evs: seq<UiEvent>, price: nat, cap: nat): (r: Model)
    ensures Reachable(m, price, cap) ==> Reachable(r, price, cap)
    ensures m.appState == Permissions ==> r == m
    decreases |evs|
  {
    if evs == [] then m else Replay(Deliver(m, evs[0], price, cap), evs[1..], price, cap)
  }

  /** What holds of every state the app can reach: the ledger invariant, the configured
      prices, never the unused `Permissions` state, and zero stats whenever `Idle`. */
  predicate Reachable(m: Model, price: nat, cap: nat) {
    && Ledger.Consistent(m.stats)
    && m.stats.pricePerLaugh == price
    && m.stats.maxCharge == cap
    && m.appState != Permissions
    && (m.appState == Idle ==> m.stats == Ledger.Initial(price, cap))
  }

  /** The screen that follows `state` in the cycle Idle, Showtime, Finished, Idle. */
  function Successor(state: AppState): AppState {
    match state
    case Idle => Showtime
    case Showtime => Finished
    case Finished => Idle
    case Permissions => Permissions
  }

  /** A laugh changes the stats in the Showtime state, and does nothing anywhere else. */
  lemma LaughDelivery(m: Model, price: nat, cap: nat)
    ensures Deliver(m, LaughReported, price, cap)
         == if m.appState == Showtime then Model(Showtime, Ledger.ApplyLaugh(m.stats)) else m
  {
  }

  /** Only a laugh changes the count, and only while the show runs; a restart zeroes it;
      start and finish leave the stats alone. */
  lemma {:induction false} CountOnlyGrowsDuringShow(m: Model, evs: seq<UiEvent>, price: nat, cap: nat)
    requires forall i :: 0 <= i < |evs| ==> evs[i] != RestartClicked
    ensures Replay(m, evs, price, cap).stats.count >= m.stats.count
    ensures (m.appState != Showtime && forall i :: 0 <= i < |evs| ==> evs[i] != StartClicked)
            ==> Replay(m, evs, price, cap).stats == m.stats
    decreases |evs|
  {
    if evs != [] {
      CountOnlyGrowsDuringShow(Deliver(m, evs[0], price, cap), evs[1..], price, cap);
    }
  }

  /** The reset handler forgets everything: its result does not depend on the prior
      state, so resetting twice is the same as resetting once. */
  lemma ResetForgets(m1: Model, m2: Model, price: nat, cap: nat)
    ensures Handle(m1, RestartClicked, price, cap) == Handle(m2, RestartClicked, price, cap)
    ensures Handle(Handle(m1, RestartClicked, price, cap), RestartClicked, price, cap)
         == Handle(m1, RestartClicked, price, cap)
    ensures Handle(m1, RestartClicked, price, cap) == Start(price, cap)
  {
  }

  /** The `App` component: its two `useState` cells and its handlers. */
  class PayPerLaugh {
    /** `PRICE_PER_LAUGH` and `MAX_CHARGE`, in cents. */
    const pricePerLaugh: nat
    const maxCharge: nat
    var appState: AppState
    var stats: LaughStats

    function Cells(): Model
      reads this
    {
      Model(appState, stats)
    }

    predicate Valid()
      reads this
    {
      pricePerLaugh > 0 && maxCharge > 0 && Reachable(Cells(), pricePerLaugh, maxCharge)
    }

    constructor (price: nat, cap: nat)
      requires price > 0 && cap > 0
      ensures Valid()
      ensures pricePerLaugh == price && maxCharge == cap
      ensures Cells() == Start(price, cap)
    {
      pricePerLaugh, maxCharge := price, cap;
      appState := Idle;
      stats := LaughStats(0, 0, price, cap);
    }

    /** `handleStartShow`, reachable from the welcome screen. */
    method StartShow()
      requires Valid() && Wired(appState, StartClicked)
      modifies this
      ensures Valid()
      ensures appState == Showtime && stats == old(stats)
    {
      appState := Showtime;
    }

    /** `handleFinishShow`, reachable from the show screen. */
    method FinishShow()
      requires Valid() && Wired(appState, FinishClicked)
      modifies this
      ensures Valid()
      ensures appState == Finished && stats == old(stats)
    {
      appState := Finished;
    }

    /** `handleLaughDetected`, reachable from the show screen. */
    method LaughDetected()
      requires Valid() && Wired(appState, LaughReported)
      modifies this
      ensures Valid()
      ensures appState == old(appState)
      ensures stats == Ledger.ApplyLaugh(old(stats))
      ensures stats.count == old(stats.count) + 1
      ensures old(stats.totalDue) <= stats.totalDue <= maxCharge
    {
      Ledger.LaughNeverLowersTotal(stats);
      var newCount := stats.count + 1;
      var newTotal := if newCount * stats.pricePerLaugh < stats.maxCharge
                      then newCount * stats.pricePerLaugh else stats.maxCharge;
      stats := stats.(count := newCount, totalDue := newTotal);
    }

    /** `resetShow`, reachable from the receipt screen. */
    method ResetShow()
      requires Valid() && Wired(appState, RestartClicked)
      modifies this
      ensures Valid()
      ensures Cells() == Start(pricePerLaugh, maxCharge)
    {
      stats := LaughStats(0, 0, pricePerLaugh, maxCharge);
      appState := Idle;
    }

    /** A user action or a laugh report: it runs the handler if the rendered screen
        holds it, and is lost otherwise. */
    method Dispatch(ev: UiEvent) returns (delivered: bool)
      requires Valid()
      modifies this
      ensures Valid()
      ensures delivered == Wired(old(appState), ev)
      ensures Cells() == Deliver(old(Cells()), ev, pricePerLaugh, maxCharge)
    {
      delivered := Wired(appState, ev);
      if delivered {
        match ev
        case StartClicked => StartShow();
        case FinishClicked => FinishShow();
        case LaughReported => LaughDetected();
        case RestartClicked => ResetShow();
      }
    }
  }
}
