/** One visit to the club end to end: the app starts on the welcome screen, the show
    runs the detector on each frame and forwards every reported laugh to the app's
    laugh handler, the finish button moves to the receipt. */
module ShowSession {
  import opened Types
  import Ledger
  import App
  import opened LaughDetection
  import Receipt

  /** One `detect` call with the laugh callback wired to the app: the detector decides
      on the frame, and a reported laugh runs the app's laugh handler once. */
  method ShowFrame(app: App.PayPerLaugh, detector: LaughDetector, tick: Tick, ghost start: LaughStats, ghost n: nat)
    returns (laugh: bool)
    requires app.Valid() && app.appState == Showtime
    requires app.stats == Ledger.Laughs(start, n)
    modifies app, detector
    ensures app.Valid() && app.appState == Showtime
    ensures FrameOutcome(detector.State(), laugh) == Step(detector.config, old(detector.State()), tick.result, tick.now)
    ensures app.stats == if laugh then Ledger.ApplyLaugh(old(app.stats)) else old(app.stats)
    ensures app.stats == Ledger.Laughs(start, if laugh then n + 1 else n)
  {
    laugh := detector.Detect(tick.result, tick.now);
    if laugh {
      app.LaughDetected();
    }
  }

  /** The detection loop after frame `i`: the frame's laugh, if any, moves from the
      laughs still to come (`Emissions` of the rest) to those already billed. */
  method LoopStep(app: App.PayPerLaugh, detector: LaughDetector, ticks: seq<Tick>, i: nat, laughs: seq<int>,
                  ghost start: LaughStats, ghost all: seq<int>)
    returns (laughs': seq<int>)
    requires i < |ticks|
    requires app.Valid() && app.appState == Showtime
    requires all == laughs + Emissions(detector.config, detector.State(), ticks[i..])
    requires app.stats == Ledger.Laughs(start, |laughs|)
    modifies app, detector
    ensures app.Valid() && app.appState == Showtime
    ensures all == laughs' + Emissions(detector.config, detector.State(), ticks[i + 1..])
    ensures app.stats == Ledger.Laughs(start, |laughs'|)
  {
    ghost var before := detector.State();
    ghost var o := Step(detector.config, before, ticks[i].result, ticks[i].now);
    EmissionsAdvance(detector.config, before, ticks, i, laughs);
    var laugh := ShowFrame(app, detector, ticks[i], start, |laughs|);
    assert o.state == detector.State() && o.laugh == laugh;
    laughs' := laughs + if laugh then [ticks[i].now] else [];
  }

  /** The Showtime screen's detection loop: one `detect` call per frame, on a detector
      mounted fresh with the screen, each laugh it reports delivered to the app. */
  method RunShowtime(app: App.PayPerLaugh, cfg: DetectorConfig, ticks: seq<Tick>) returns (laughs: seq<int>)
    requires app.Valid() && app.appState == Showtime
    modifies app
    ensures app.Valid() && app.appState == Showtime
    ensures laughs == Emissions(cfg, Fresh, ticks)
    ensures app.stats == Ledger.Laughs(old(app.stats), |laughs|)
    ensures app.stats.count == old(app.stats.count) + |laughs|
    ensures forall i :: 0 <= i < |laughs| - 1 ==> laughs[i + 1] - laughs[i] > cfg.cooldownPeriod
  {
    var detector := new LaughDetector(cfg);
    laughs := [];
    var i := 0;
    ghost var all := Emissions(cfg, Fresh, ticks);
    ghost var start := app.stats;
    assert ticks[0..] == ticks;
    while i < |ticks|
      invariant 0 <= i <= |ticks|
      invariant app.Valid() && app.appState == Showtime
      invariant detector.config == cfg
      invariant all == laughs + Emissions(cfg, detector.State(), ticks[i..])
      invariant app.stats == Ledger.Laughs(start, |laughs|)
    {
      laughs := LoopStep(app, detector, ticks, i, laughs, start, all);
      i := i + 1;
    }
    FreshDetectorSpacing(cfg, ticks);
  }

  /** Welcome screen, start, the show over `ticks`, finish: the receipt bills one laugh
      per reported laugh, at most the cap, and shows the cap line iff it was needed. */
  method Visit(price: nat, cap: nat, cfg: DetectorConfig, ticks: seq<Tick>) returns (bill: Receipt.ReceiptView)
    requires price > 0 && cap > 0
    ensures var n := |Emissions(cfg, Fresh, ticks)|;
            bill == Receipt.ReceiptView(n, price, n * price > cap, Ledger.Charge(n, price, cap))
    ensures bill.totalDue <= cap
  {
    var app := new App.PayPerLaugh(price, cap);
    var started := app.Dispatch(App.StartClicked);
    var laughs := RunShowtime(app, cfg, ticks);
    var finished := app.Dispatch(App.FinishClicked);
    assert app.appState == Finished;
    Ledger.AfterLaughs(price, cap, |laughs|);
    bill := Receipt.Render(app.stats);
  }
}
