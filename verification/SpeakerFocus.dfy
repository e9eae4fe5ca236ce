/**
  The election of the active speaker (src/hooks/useSpeakerFocus.ts:48-113): each sample smooths the
  measured levels and decides with hysteresis who holds the floor. Levels are reals; a rounding
  error of JavaScript numbers is not modelled.
 */
module SpeakerFocus {
  import opened Wrappers

  /** A participant id. JavaScript takes the empty string for no id in a condition. */
  datatype Id = EmptyId | NamedId(name: string)

  const SPEECH_ON := 0.14
  const SPEECH_OFF := 0.08
  const TAKEOVER_MARGIN := 1.3
  const MIN_HOLD_MS := 900

  datatype Sample = Sample(id: Id, level: real)
  datatype State = State(smooth: map<Id, real>, active: Option<Id>, since: int)

  function NextLevel(prev: real, level: real): real {
    if level > prev then prev + (level - prev) * 0.55 else prev + (level - prev) * 0.18
  }

  function LevelOf(smooth: map<Id, real>, id: Id): real {
    if id in smooth then smooth[id] else 0.0
  }

  /** The measured levels are a map, listed in its order. */
  predicate Distinct(raw: seq<Sample>) {
    forall i, j :: 0 <= i < j < |raw| ==> raw[i].id != raw[j].id
  }

  function Ids(raw: seq<Sample>): set<Id> {
    set sample | sample in raw :: sample.id
  }

  function Updated(smooth: map<Id, real>, sample: Sample): real {
    NextLevel(LevelOf(smooth, sample.id), sample.level)
  }

  /** The levels after a sample: an update for each measured id, and no other id. */
  function Smoothed(smooth: map<Id, real>, raw: seq<Sample>): (r: map<Id, real>)
    ensures r.Keys == Ids(raw)
  {
    if raw == [] then map[]
    else
      var init, last := raw[..|raw| - 1], raw[|raw| - 1];
      assert raw == init + [last];
      Smoothed(smooth, init)[last.id := Updated(smooth, last)]
  }

  /** The loudest id; the first one in the order of the map if several are. */
  function Best(smooth: map<Id, real>, raw: seq<Sample>): (Option<Id>, real) {
    if raw == [] then (None, 0.0)
    else
      var before := Best(smooth, raw[..|raw| - 1]);
      var last := raw[|raw| - 1];
      if Updated(smooth, last) > before.1 then (Some(last.id), Updated(smooth, last)) else before
  }

  /** The level the election credits the holder with: the empty id counts as no holder here. */
  function Credited(smooth: map<Id, real>, current: Option<Id>): real {
    if current.Some? && current.value != EmptyId then LevelOf(smooth, current.value) else 0.0
  }

  function Elect(current: Option<Id>, smooth: map<Id, real>, best: Option<Id>, bestLevel: real, held: int): Option<Id> {
    var level := Credited(smooth, current);
    var audible := current.Some? && level >= SPEECH_OFF;
    var challengerStrong :=
      && best.Some? && best != current && bestLevel >= SPEECH_ON
      && (!audible || bestLevel >= level * TAKEOVER_MARGIN);
    if current.None? && best.Some? && bestLevel >= SPEECH_ON then best
    else if challengerStrong && (held >= MIN_HOLD_MS || !audible) then best
    else if current.Some? && current.value !in smooth then best
    else current
  }

  function Tick(s: State, raw: seq<Sample>, now: int): State {
    var smooth := Smoothed(s.smooth, raw);
    var (best, bestLevel) := Best(s.smooth, raw);
    var next := Elect(s.active, smooth, best, bestLevel, now - s.since);
    State(smooth, next, if next != s.active then now else s.since)
  }

  function Disable(s: State): State {
    State(map[], None, s.since)
  }

  lemma OneMore(smooth: map<Id, real>, raw: seq<Sample>, sample: Sample)
    ensures Ids(raw + [sample]) == Ids(raw) + {sample.id}
    ensures Smoothed(smooth, raw + [sample]) == Smoothed(smooth, raw)[sample.id := Updated(smooth, sample)]
    ensures Best(smooth, raw + [sample]) ==
            if Updated(smooth, sample) > Best(smooth, raw).1 then (Some(sample.id), Updated(smooth, sample))
            else Best(smooth, raw)
  {
    var more := raw + [sample];
    assert more[..|raw|] == raw && more[|raw|] == sample;
    hide Updated;
  }

  lemma OneMoreDistinct(raw: seq<Sample>, sample: Sample)
    ensures Distinct(raw + [sample]) ==> sample.id !in Ids(raw) && Distinct(raw)
  {
    var more := raw + [sample];
    if Distinct(more) {
      forall i | 0 <= i < |raw| ensures raw[i].id != sample.id {
        assert more[i].id != more[|raw|].id;
      }
      assert forall i | 0 <= i < |raw| :: more[i] == raw[i];
    }
  }

  lemma LoopStart(before: map<Id, real>, raw: seq<Sample>)
    ensures before + Smoothed(before, raw[..0]) == before && Best(before, raw[..0]) == (None, 0.0)
  {
  }

  lemma PrefixDistinct(raw: seq<Sample>, i: nat)
    requires Distinct(raw) && i <= |raw|
    ensures Distinct(raw[..i])
  {
  }

  lemma OverrideOne(before: map<Id, real>, done: map<Id, real>, id: Id, level: real)
    ensures before + done[id := level] == (before + done)[id := level]
    ensures id !in done ==> LevelOf(before + done, id) == LevelOf(before, id)
  {
  }

  /** One turn of the loop: the levels are the earlier ones, overridden by those already smoothed. */
  lemma LoopTurn(before: map<Id, real>, raw: seq<Sample>, i: nat)
    requires Distinct(raw) && i < |raw|
    ensures var smooth := before + Smoothed(before, raw[..i]);
            var (best, level) := Best(before, raw[..i]);
            var next := NextLevel(LevelOf(smooth, raw[i].id), raw[i].level);
            && before + Smoothed(before, raw[..i + 1]) == smooth[raw[i].id := next]
            && Best(before, raw[..i + 1]) == if next > level then (Some(raw[i].id), next) else (best, level)
  {
    assert raw[..i + 1] == raw[..i] + [raw[i]];
    PrefixDistinct(raw, i + 1);
    hide Distinct, Smoothed, Best, Ids, NextLevel, LevelOf;
    OneMore(before, raw[..i], raw[i]);
    OneMoreDistinct(raw[..i], raw[i]);
    OverrideOne(before, Smoothed(before, raw[..i]), raw[i].id, Updated(before, raw[i]));
  }

  class Focus {
    var smooth: map<Id, real>
    var active: Option<Id>
    var since: int

    function View(): State
      reads this
    {
      State(smooth, active, since)
    }

    constructor ()
      ensures View() == State(map[], None, 0)
    {
      smooth, active, since := map[], None, 0;
    }

    method TurnOff()
      modifies this
      ensures View() == Disable(old(View()))
    {
      active := None;
      smooth := map[];
    }

    /** The first loop of a sample: smooth every measured level and remember the loudest. */
    method SmoothLevels(raw: seq<Sample>) returns (bestId: Option<Id>, bestLevel: real)
      requires Distinct(raw)
      modifies `smooth
      ensures (bestId, bestLevel) == Best(old(smooth), raw)
      ensures smooth == old(smooth) + Smoothed(old(smooth), raw)
    {
      bestId, bestLevel := None, 0.0;
      LoopStart(smooth, raw);
      hide *;
      var i := 0;
      while i < |raw|
        invariant 0 <= i <= |raw|
        invariant (bestId, bestLevel) == Best(old(smooth), raw[..i])
        invariant smooth == old(smooth) + Smoothed(old(smooth), raw[..i])
      {
        LoopTurn(old(smooth), raw, i);
        var next := NextLevel(LevelOf(smooth, raw[i].id), raw[i].level);
        smooth := smooth[raw[i].id := next];
        if next > bestLevel {
          bestLevel := next;
          bestId := Some(raw[i].id);
        }
        i := i + 1;
      }
      assert raw[..i] == raw;
    }

    /** The second loop: forget everybody who is no longer measured. */
    method ForgetOthers(ghost before: map<Id, real>, raw: seq<Sample>)
      requires smooth == before + Smoothed(before, raw)
      modifies `smooth
      ensures smooth == Smoothed(before, raw)
    {
      ghost var kept := Smoothed(before, raw);
      hide Smoothed;
      var keys := smooth.Keys;
      while keys != {}
        invariant keys <= smooth.Keys
        invariant forall id :: id in smooth <==> (id in kept || id in keys)
        invariant forall id | id in kept :: smooth[id] == kept[id]
        decreases |keys|
      {
        var id :| id in keys;
        if id !in Ids(raw) {
          smooth := smooth - {id};
        }
        keys := keys - {id};
      }
    }

    method TakeSample(raw: seq<Sample>, now: int)
      requires Distinct(raw)
      modifies this
      ensures View() == Tick(old(View()), raw, now)
    {
      var bestId, bestLevel := SmoothLevels(raw);
      ForgetOthers(old(smooth), raw);
      hide Smoothed, Best, Ids, Distinct;
      var currentLevel := if active.Some? && active.value != EmptyId then LevelOf(smooth, active.value) else 0.0;
      var currentAudible := active.Some? && currentLevel >= SPEECH_OFF;
      var challengerStrong :=
        && bestId.Some? && bestId != active && bestLevel >= SPEECH_ON
        && (!currentAudible || bestLevel >= currentLevel * TAKEOVER_MARGIN);
      var holdExpired := now - since >= MIN_HOLD_MS;
      var next := active;
      if next.None? && bestId.Some? && bestLevel >= SPEECH_ON {
        next := bestId;
      } else if challengerStrong && (holdExpired || !currentAudible) {
        next := bestId;
      } else if active.Some? && active.value !in smooth {
        next := bestId;
      }
      assert next == Elect(active, smooth, bestId, bestLevel, now - since);
      hide Elect, LevelOf;
      if next != active {
        active := next;
        since := now;
      }
    }
  }

  // ---------------------------------------------------------------------------
  // After every sample
  // ---------------------------------------------------------------------------

  lemma {:induction false} SmoothedAt(smooth: map<Id, real>, raw: seq<Sample>, i: nat)
    requires Distinct(raw) && i < |raw|
    ensures raw[i].id in Smoothed(smooth, raw) && Smoothed(smooth, raw)[raw[i].id] == Updated(smooth, raw[i])
  {
    if i < |raw| - 1 {
      SmoothedAt(smooth, raw[..|raw| - 1], i);
    }
  }

  predicate Loudest(levels: map<Id, real>, best: Option<Id>, level: real) {
    && (forall id | id in levels :: levels[id] <= level)
    && (best.None? ==> level == 0.0)
    && (best.Some? ==> level > 0.0 && best.value in levels && levels[best.value] == level)
  }

  lemma LouderOne(levels: map<Id, real>, best: Option<Id>, level: real, id: Id, next: real)
    requires Loudest(levels, best, level) && id !in levels
    ensures Loudest(levels[id := next], if next > level then Some(id) else best, if next > level then next else level)
  {
  }

  lemma {:induction false} BestIsLoudest(smooth: map<Id, real>, raw: seq<Sample>)
    requires Distinct(raw)
    ensures Loudest(Smoothed(smooth, raw), Best(smooth, raw).0, Best(smooth, raw).1)
  {
    if raw != [] {
      var init, last := raw[..|raw| - 1], raw[|raw| - 1];
      assert raw == init + [last];
      OneMore(smooth, init, last);
      BestIsLoudest(smooth, init);
      hide *;
      LouderOne(Smoothed(smooth, init), Best(smooth, init).0, Best(smooth, init).1, last.id, Updated(smooth, last));
    }
  }

  /** `y` beats the holder `x` by both thresholds: it speaks, and `x` is silent or clearly softer. */
  predicate Beats(smooth: map<Id, real>, y: Id, x: Id) {
    && y != x && LevelOf(smooth, y) >= 0.14
    && (LevelOf(smooth, x) < 0.08 || LevelOf(smooth, y) >= LevelOf(smooth, x) * 1.3)
  }

  /**
    After a sample the floor is empty only if nobody speaks; otherwise its holder is measured, and
    once the hold of the previous holder had expired, nobody beats the holder.
   */
  lemma FloorIsDeserved(s: State, raw: seq<Sample>, now: int)
    requires Distinct(raw)
    ensures var s' := Tick(s, raw, now);
            match s'.active
            case None => forall id | id in s'.smooth :: s'.smooth[id] < 0.14
            case Some(x) => x in s'.smooth && (now - s.since >= 900 ==> forall y :: !Beats(s'.smooth, y, x))
  {
    BestIsLoudest(s.smooth, raw);
  }

  /**
    An audible speaker is ousted only after its hold, by someone who beats it. The holder with the
    empty id is credited with no level, so the hold does not protect it.
   */
  lemma AudibleKeepsFloor(s: State, raw: seq<Sample>, now: int)
    requires Distinct(raw) && s.active.Some? && s.active.value != EmptyId
    requires LevelOf(Tick(s, raw, now).smooth, s.active.value) >= 0.08
    ensures var s' := Tick(s, raw, now);
            s'.active != s.active <==>
            now - s.since >= 900 && Best(s.smooth, raw).0.Some? &&
            Beats(s'.smooth, Best(s.smooth, raw).0.value, s.active.value)
  {
    BestIsLoudest(s.smooth, raw);
  }

  lemma EmptyIdIsNotProtected()
    ensures var s := State(map[EmptyId := 1.0, NamedId("b") := 1.0], Some(EmptyId), 0);
            var s' := Tick(s, [Sample(EmptyId, 0.5), Sample(NamedId("b"), 1.0)], 1);
            s'.smooth[EmptyId] >= 0.08 && s'.active == Some(NamedId("b"))
  {
    var raw := [Sample(EmptyId, 0.5), Sample(NamedId("b"), 1.0)];
    var smooth := map[EmptyId := 1.0, NamedId("b") := 1.0];
    SmoothedAt(smooth, raw, 0);
    SmoothedAt(smooth, raw, 1);
    assert raw[..1] == [Sample(EmptyId, 0.5)] && raw[..1][..0] == [];
    assert Best(smooth, raw[..1]) == (Some(EmptyId), 0.91);
    assert Best(smooth, raw) == (Some(NamedId("b")), 1.0);
  }

  // ---------------------------------------------------------------------------
  // Hysteresis over runs
  // ---------------------------------------------------------------------------

  datatype Event = Sampled(raw: seq<Sample>, now: int) | Disabled

  /** A change of the floor, and the level of the one who lost it. */
  datatype Change = Change(at: int, from: Option<Id>, to: Option<Id>, level: real)

  datatype History = History(s: State, changes: seq<Change>)

  function Lost(holder: Option<Id>, smooth: map<Id, real>): real {
    if holder.Some? then LevelOf(smooth, holder.value) else 0.0
  }

  function Do(h: History, e: Event): History {
    match e
    case Disabled => History(Disable(h.s), h.changes)
    case Sampled(raw, now) =>
      var s' := Tick(h.s, raw, now);
      History(s',
              if s'.active == h.s.active then h.changes
              else h.changes + [Change(now, h.s.active, s'.active, Lost(h.s.active, s'.smooth))])
  }

  function Run(events: seq<Event>): History {
    if events == [] then History(State(map[], None, 0), [])
    else Do(Run(events[..|events| - 1]), events[|events| - 1])
  }

  predicate AllDistinct(events: seq<Event>) {
    forall k | 0 <= k < |events| :: events[k].Sampled? ==> Distinct(events[k].raw)
  }

  predicate Ousts(c: Change) {
    c.from.Some? && c.level >= 0.08
  }

  /** A change that ousts an audible speaker with a non-empty id comes a whole hold after it got the floor. */
  predicate Held(changes: seq<Change>, k: nat)
    requires k < |changes|
  {
    Ousts(changes[k]) && changes[k].from != Some(EmptyId) ==>
      k >= 1 && changes[k - 1].to == changes[k].from && changes[k].at - changes[k - 1].at >= 900
  }

  ghost predicate Timed(h: History) {
    && (forall k: nat | k < |h.changes| :: Held(h.changes, k))
    && (h.s.active.Some? ==>
        && h.changes != []
        && h.changes[|h.changes| - 1].to == h.s.active && h.changes[|h.changes| - 1].at == h.s.since)
  }

  lemma EventTimed(h: History, e: Event)
    requires Timed(h) && (e.Sampled? ==> Distinct(e.raw))
    ensures Timed(Do(h, e))
  {
    var h' := Do(h, e);
    hide Elect, Smoothed, Best;
    if e.Sampled? && h'.s.active != h.s.active {
      var n := |h.changes|;
      assert h'.changes[..n] == h.changes;
      if Ousts(h'.changes[n]) && h.s.active.value != EmptyId {
        AudibleKeepsFloor(h.s, e.raw, e.now);
      }
      forall k: nat | k < |h'.changes| ensures Held(h'.changes, k) {
        if k < n {
          assert Held(h.changes, k);
        }
      }
    }
  }

  /** Hysteresis: whatever is sampled, no audible speaker with a non-empty id loses the floor within the hold. */
  lemma {:induction false} Hysteresis(events: seq<Event>)
    requires AllDistinct(events)
    ensures Timed(Run(events))
  {
    if events != [] {
      Hysteresis(events[..|events| - 1]);
      EventTimed(Run(events[..|events| - 1]), events[|events| - 1]);
    }
  }

  // ---------------------------------------------------------------------------
  // Bounded takeover
  // ---------------------------------------------------------------------------

  function RunTicks(s: State, ticks: seq<Event>): State {
    if ticks == [] then s
    else
      var before := RunTicks(s, ticks[..|ticks| - 1]);
      match ticks[|ticks| - 1]
      case Sampled(raw, now) => Tick(before, raw, now)
      case Disabled => Disable(before)
  }

  /** Only `x` makes a sound. */
  predicate OnlySpeaker(raw: seq<Sample>, x: Id) {
    && Distinct(raw) && x in Ids(raw)
    && forall sample | sample in raw :: if sample.id == x then 0.3 <= sample.level <= 1.0 else sample.level == 0.0
  }

  /** What is left of a level after `k` silent samples, and of the distance to a steady level. */
  function Power(base: real, k: nat): real {
    if k == 0 then 1.0 else base * Power(base, k - 1)
  }

  lemma Shrinks(base: real, p: real)
    requires 0.0 < base < 1.0 && 0.0 < p
    ensures 0.0 < base * p < p
  {
    assert (1.0 - base) * p > 0.0;
    assert p - base * p == (1.0 - base) * p;
  }

  lemma {:induction false} PowerPositive(base: real, k: nat)
    requires 0.0 < base < 1.0
    ensures 0.0 < Power(base, k) <= 1.0
    ensures k > 0 ==> Power(base, k) <= Power(base, k - 1)
  {
    if k != 0 {
      PowerPositive(base, k - 1);
      Shrinks(base, Power(base, k - 1));
    }
  }

  lemma {:induction false} PowerFalls(base: real, j: nat, k: nat)
    requires 0.0 < base < 1.0 && j <= k
    ensures Power(base, k) <= Power(base, j)
  {
    hide Power;
    if j < k {
      PowerFalls(base, j, k - 1);
      PowerPositive(base, k);
    }
  }

  lemma ThirteenSamples()
    ensures Power(0.82, 13) < 0.08 && Power(0.45, 13) < 0.001
  {
    assert Power(0.82, 1) == 0.82 && Power(0.82, 2) == 0.6724 && Power(0.82, 3) == 0.551368;
    assert Power(0.82, 4) <= 0.45213 && Power(0.82, 5) <= 0.37075 && Power(0.82, 6) <= 0.30402;
    assert Power(0.82, 7) <= 0.24930 && Power(0.82, 8) <= 0.20443 && Power(0.82, 9) <= 0.16764;
    assert Power(0.82, 10) <= 0.13747 && Power(0.82, 11) <= 0.11273 && Power(0.82, 12) <= 0.09244;
    assert Power(0.45, 1) == 0.45 && Power(0.45, 2) == 0.2025 && Power(0.45, 3) <= 0.0912;
    assert Power(0.45, 4) <= 0.0411 && Power(0.45, 5) <= 0.0185 && Power(0.45, 6) <= 0.00833;
    assert Power(0.45, 7) <= 0.00375 && Power(0.45, 8) <= 0.0017 && Power(0.45, 9) <= 0.00077;
    PowerFalls(0.45, 9, 13);
  }

  /** After `k` samples, how loud `x` is at least and everybody else at most. */
  ghost predicate Bounds(s: State, x: Id, k: nat) {
    && (k > 0 ==> x in s.smooth)
    && 0.3 - 0.3 * Power(0.45, k) <= LevelOf(s.smooth, x) <= 1.0
    && forall id | id in s.smooth && id != x :: 0.0 <= s.smooth[id] <= Power(0.82, k)
  }

  lemma SpeakerRises(prev: real, level: real, k: nat)
    requires 0.3 - 0.3 * Power(0.45, k) <= prev <= 1.0 && 0.3 <= level <= 1.0
    ensures 0.3 - 0.3 * Power(0.45, k + 1) <= NextLevel(prev, level) <= 1.0
  {
    PowerPositive(0.45, k + 1);
  }

  lemma OtherFalls(prev: real, k: nat)
    requires 0.0 <= prev <= Power(0.82, k)
    ensures 0.0 <= NextLevel(prev, 0.0) <= Power(0.82, k + 1)
  {
  }

  lemma TickBounds(s: State, raw: seq<Sample>, now: int, x: Id, k: nat)
    requires Bounds(s, x, k) && OnlySpeaker(raw, x)
    ensures Bounds(Tick(s, raw, now), x, k + 1)
  {
    PowerPositive(0.82, k);
    var smooth := Tick(s, raw, now).smooth;
    forall id | id in smooth
      ensures if id == x then 0.3 - 0.3 * Power(0.45, k + 1) <= smooth[id] <= 1.0
              else 0.0 <= smooth[id] <= Power(0.82, k + 1)
    {
      var i :| 0 <= i < |raw| && raw[i].id == id;
      SmoothedAt(s.smooth, raw, i);
      assert raw[i] in raw;
      if id == x {
        SpeakerRises(LevelOf(s.smooth, id), raw[i].level, k);
      } else {
        OtherFalls(LevelOf(s.smooth, id), k);
      }
    }
    hide Power;
  }

  /** Once everybody else is inaudible, the next sample gives `x` the floor, whatever the time. */
  lemma TickElects(s: State, raw: seq<Sample>, now: int, x: Id, k: nat)
    requires Bounds(s, x, k) && OnlySpeaker(raw, x) && k >= 12
    ensures Tick(s, raw, now).active == Some(x)
  {
    TickBounds(s, raw, now, x, k);
    BestIsLoudest(s.smooth, raw);
    ThirteenSamples();
    PowerFalls(0.82, 13, k + 1);
    PowerFalls(0.45, 13, k + 1);
    hide Power;
  }

  lemma {:induction false} TicksBound(s: State, ticks: seq<Event>, x: Id)
    requires Bounds(s, x, 0)
    requires forall k | 0 <= k < |ticks| :: ticks[k].Sampled? && OnlySpeaker(ticks[k].raw, x)
    ensures Bounds(RunTicks(s, ticks), x, |ticks|)
  {
    if ticks != [] {
      TicksBound(s, ticks[..|ticks| - 1], x);
      var last := ticks[|ticks| - 1];
      TickBounds(RunTicks(s, ticks[..|ticks| - 1]), last.raw, last.now, x, |ticks| - 1);
    }
  }

  /**
    Takeover: from any state with levels between 0 and 1, whoever keeps a measured level of at
    least 0.3 while nobody else makes a sound holds the floor from the thirteenth sample on.
   */
  lemma Takeover(s: State, ticks: seq<Event>, x: Id)
    requires forall id | id in s.smooth :: 0.0 <= s.smooth[id] <= 1.0
    requires forall k | 0 <= k < |ticks| :: ticks[k].Sampled? && OnlySpeaker(ticks[k].raw, x)
    requires |ticks| >= 13
    ensures RunTicks(s, ticks).active == Some(x)
  {
    var init, last := ticks[..|ticks| - 1], ticks[|ticks| - 1];
    var before := RunTicks(s, init);
    assert RunTicks(s, ticks) == Tick(before, last.raw, last.now) && Bounds(s, x, 0);
    hide *;
    TicksBound(s, init, x);
    TickElects(before, last.raw, last.now, x, |ticks| - 1);
  }

  // ---------------------------------------------------------------------------
  // A short pause
  // ---------------------------------------------------------------------------

  /** The sample measures `x` at the level `r`. */
  predicate Measures(raw: seq<Sample>, x: Id, r: real) {
    Distinct(raw) && x in Ids(raw) && forall sample | sample in raw && sample.id == x :: sample.level == r
  }

  lemma MeasuredNext(s: State, raw: seq<Sample>, now: int, x: Id, r: real)
    requires Measures(raw, x, r)
    ensures LevelOf(Tick(s, raw, now).smooth, x) == NextLevel(LevelOf(s.smooth, x), r)
  {
    var i :| 0 <= i < |raw| && raw[i].id == x;
    assert raw[i] in raw;
    SmoothedAt(s.smooth, raw, i);
    hide Best, Elect;
  }

  /** What is left of the distance to a steady level after `k` samples: a level rises faster than it falls. */
  function Left(from: real, r: real, k: nat): real {
    (from - r) * Power(if r > from then 0.45 else 0.82, k)
  }

  lemma NextLeft(from: real, r: real, k: nat)
    ensures NextLevel(r + Left(from, r, k), r) == r + Left(from, r, k + 1)
  {
    var base := if r > from then 0.45 else 0.82;
    PowerPositive(base, k);
    assert Left(from, r, k + 1) == (from - r) * (base * Power(base, k));
    assert NextLevel(r + Left(from, r, k), r) ==
           r + if Left(from, r, k) < 0.0 then 0.45 * Left(from, r, k) else 0.82 * Left(from, r, k);
    assert Left(from, r, k) == (from - r) * Power(base, k);
    hide *;
    Scaled(from - r, base, Power(base, k));
  }

  lemma Scaled(d: real, base: real, p: real)
    requires p > 0.0
    ensures d * (base * p) == base * (d * p)
    ensures d * p < 0.0 <==> d < 0.0
  {
  }

  /** After so many samples at a steady level, exactly so much of the distance to it is left. */
  lemma {:induction false} SteadyLevel(s: State, ticks: seq<Event>, x: Id, r: real)
    requires forall k | 0 <= k < |ticks| :: ticks[k].Sampled? && Measures(ticks[k].raw, x, r)
    ensures LevelOf(RunTicks(s, ticks).smooth, x) == r + Left(LevelOf(s.smooth, x), r, |ticks|)
  {
    if ticks != [] {
      var init, last := ticks[..|ticks| - 1], ticks[|ticks| - 1];
      SteadyLevel(s, init, x, r);
      MeasuredNext(RunTicks(s, init), last.raw, last.now, x, r);
      NextLeft(LevelOf(s.smooth, x), r, |init|);
      hide Left, Tick, Measures, NextLevel;
    }
  }

  /** Everybody else is measured between 0 and `r`. */
  predicate OthersUpTo(raw: seq<Sample>, x: Id, r: real) {
    forall sample | sample in raw && sample.id != x :: 0.0 <= sample.level <= r
  }

  lemma RisesAtMost(prev: real, level: real, r: real, k: nat)
    requires 0.0 <= prev <= r + Left(0.0, r, k) && 0.0 <= level <= r
    ensures 0.0 <= NextLevel(prev, level) <= r + Left(0.0, r, k + 1)
  {
    PowerPositive(0.45, k + 1);
    if r > 0.0 {
      var p := Power(0.45, k);
      assert Left(0.0, r, k) == -(r * p) && Left(0.0, r, k + 1) == -(r * (0.45 * p));
      assert r * (0.45 * p) == 0.45 * (r * p) && r * p > 0.0;
    }
    hide Power;
  }

  lemma OthersNext(s: State, raw: seq<Sample>, now: int, x: Id, y: Id, r: real, k: nat)
    requires Distinct(raw) && OthersUpTo(raw, x, r) && y != x && r >= 0.0
    requires 0.0 <= LevelOf(s.smooth, y) <= r + Left(0.0, r, k)
    ensures 0.0 <= LevelOf(Tick(s, raw, now).smooth, y) <= r + Left(0.0, r, k + 1)
  {
    hide Left, NextLevel, Best, Elect;
    if y in Ids(raw) {
      var i :| 0 <= i < |raw| && raw[i].id == y;
      assert raw[i] in raw;
      SmoothedAt(s.smooth, raw, i);
      RisesAtMost(LevelOf(s.smooth, y), raw[i].level, r, k);
    } else {
      RisesAtMost(LevelOf(s.smooth, y), 0.0, r, k);
      RisesAtMost(0.0, 0.0, r, k);
    }
  }

  /** The same over a run of samples. */
  lemma {:induction false} OthersRise(s: State, ticks: seq<Event>, x: Id, y: Id, r: real)
    requires forall k | 0 <= k < |ticks| ::
               ticks[k].Sampled? && Distinct(ticks[k].raw) && OthersUpTo(ticks[k].raw, x, r)
    requires LevelOf(s.smooth, y) == 0.0 && y != x && r >= 0.0
    ensures 0.0 <= LevelOf(RunTicks(s, ticks).smooth, y) <= r + Left(0.0, r, |ticks|)
  {
    if ticks != [] {
      var init, last := ticks[..|ticks| - 1], ticks[|ticks| - 1];
      assert RunTicks(s, ticks) == Tick(RunTicks(s, init), last.raw, last.now);
      hide *;
      OthersRise(s, init, x, y, r);
      OthersNext(RunTicks(s, init), last.raw, last.now, x, y, r, |init|);
    } else {
      assert Left(0.0, r, 0) == -r;
    }
  }

  /** How high `k` samples at the level `r` raise a level of 0. */
  function Risen(r: real, k: nat): real {
    r * (1.0 - Power(0.45, k))
  }

  /** Whoever starts at 0 and is measured at `r` at most has risen so high at most. */
  lemma QuietRises(s: State, ticks: seq<Event>, x: Id, y: Id, r: real)
    requires forall k | 0 <= k < |ticks| ::
               ticks[k].Sampled? && Distinct(ticks[k].raw) && OthersUpTo(ticks[k].raw, x, r)
    requires LevelOf(s.smooth, y) == 0.0 && y != x && r >= 0.0
    ensures 0.0 <= LevelOf(RunTicks(s, ticks).smooth, y) <= Risen(r, |ticks|)
  {
    OthersRise(s, ticks, x, y, r);
    hide *;
    LeftFromZero(r, |ticks|);
  }

  lemma LeftFromZero(r: real, k: nat)
    requires r >= 0.0
    ensures r + Left(0.0, r, k) == Risen(r, k)
    ensures Left(r, 0.0, k) == Faded(r, k)
  {
    hide Power;
  }

  /** What `k` silent samples leave of a level. */
  function Faded(level: real, k: nat): real {
    level * Power(0.82, k)
  }

  /** In the `k`-th sample the holder is audible, and is within its hold or not clearly exceeded. */
  ghost predicate Protected(s: State, ticks: seq<Event>, x: Id, k: nat)
    requires 0 < k <= |ticks| && ticks[k - 1].Sampled?
  {
    var left := Faded(LevelOf(s.smooth, x), k);
    && left >= 0.08
    && (ticks[k - 1].now - s.since < 900
        || forall y | y != x :: LevelOf(RunTicks(s, ticks[..k]).smooth, y) < left * 1.3)
  }

  /** A level of `l` with `k` silent samples after it is still `l * Power(0.82, k)`. */
  lemma FadesSlowly(s: State, ticks: seq<Event>, x: Id)
    requires forall k | 0 <= k < |ticks| :: ticks[k].Sampled? && Measures(ticks[k].raw, x, 0.0)
    requires LevelOf(s.smooth, x) >= 0.0
    ensures LevelOf(RunTicks(s, ticks).smooth, x) == Faded(LevelOf(s.smooth, x), |ticks|)
  {
    hide *;
    SteadyLevel(s, ticks, x, 0.0);
    LeftFromZero(LevelOf(s.smooth, x), |ticks|);
  }

  /**
    A pause: a holder who falls silent keeps the floor as long as what each sample leaves of its
    level, 82 hundredths, is audible, and either the hold has not expired or nobody has 1.3 times
    as much.
   */
  lemma {:induction false} PauseKeepsFloor(s: State, ticks: seq<Event>, x: Id)
    requires s.active == Some(x) && x != EmptyId && LevelOf(s.smooth, x) >= 0.0
    requires forall k | 0 <= k < |ticks| :: ticks[k].Sampled? && Measures(ticks[k].raw, x, 0.0)
    requires forall k: nat | 0 < k <= |ticks| :: Protected(s, ticks, x, k)
    ensures RunTicks(s, ticks).active == Some(x) && RunTicks(s, ticks).since == s.since
  {
    FadesSlowly(s, ticks, x);
    if ticks != [] {
      var init, last := ticks[..|ticks| - 1], ticks[|ticks| - 1];
      assert RunTicks(s, ticks) == Tick(RunTicks(s, init), last.raw, last.now);
      assert Distinct(last.raw);
      hide *;
      forall k: nat | 0 < k <= |init| ensures Protected(s, init, x, k) {
        assert Protected(s, ticks, x, k);
        PrefixProtected(s, ticks, x, init, k);
      }
      PauseKeepsFloor(s, init, x);
      assert Protected(s, ticks, x, |ticks|);
      StaysHolder(s, ticks, x);
    }
  }

  lemma PrefixProtected(s: State, ticks: seq<Event>, x: Id, init: seq<Event>, k: nat)
    requires ticks != [] && init == ticks[..|ticks| - 1] && 0 < k < |ticks| && ticks[k - 1].Sampled?
    requires Protected(s, ticks, x, k)
    ensures Protected(s, init, x, k)
  {
    hide RunTicks, LevelOf, Faded;
    assert ticks[..k] == init[..k];
  }

  lemma StaysHolder(s: State, ticks: seq<Event>, x: Id)
    requires ticks != [] && ticks[|ticks| - 1].Sampled? && Distinct(ticks[|ticks| - 1].raw)
    requires x != EmptyId && Protected(s, ticks, x, |ticks|)
    requires LevelOf(RunTicks(s, ticks).smooth, x) == Faded(LevelOf(s.smooth, x), |ticks|)
    requires var before := RunTicks(s, ticks[..|ticks| - 1]); before.active == Some(x) && before.since == s.since
    ensures RunTicks(s, ticks).active == Some(x) && RunTicks(s, ticks).since == s.since
  {
    var before, last := RunTicks(s, ticks[..|ticks| - 1]), ticks[|ticks| - 1];
    assert ticks[..|ticks|] == ticks;
    assert RunTicks(s, ticks) == Tick(before, last.raw, last.now);
    AudibleKeepsFloor(before, last.raw, last.now);
    hide Best, Elect, Smoothed, RunTicks, Faded, Distinct, LevelOf;
  }

  /** A silent holder who is still measured loses the floor, hold or no hold, exactly if somebody speaks. */
  lemma SilentLosesFloor(s: State, raw: seq<Sample>, now: int)
    requires Distinct(raw) && s.active.Some? && s.active.value in Ids(raw)
    requires LevelOf(Tick(s, raw, now).smooth, s.active.value) < 0.08
    ensures var s' := Tick(s, raw, now);
            s'.active != s.active <==> exists y :: y in s'.smooth && s'.smooth[y] >= 0.14
  {
    BestIsLoudest(s.smooth, raw);
  }

  /** The floor goes to the loudest; it becomes empty only when its holder is gone and nobody is heard. */
  lemma NewHolderIsLoudest(s: State, raw: seq<Sample>, now: int)
    requires Distinct(raw) && Tick(s, raw, now).active != s.active
    ensures var s' := Tick(s, raw, now);
            && s'.since == now
            && (s'.active.Some? ==>
                  && s'.active.value in s'.smooth
                  && forall y | y in s'.smooth :: s'.smooth[y] <= s'.smooth[s'.active.value])
            && (s'.active.None? ==> s.active.value !in s'.smooth && forall y | y in s'.smooth :: s'.smooth[y] <= 0.0)
  {
    BestIsLoudest(s.smooth, raw);
  }

  /** Turned off and on again, the election starts from silence with nobody holding the floor. */
  lemma StartsFromSilence(s: State, raw: seq<Sample>, now: int)
    requires Distinct(raw)
    ensures var off := Disable(s);
            var on := Tick(off, raw, now);
            && off.active == None
            && (forall i | 0 <= i < |raw| ::
                  raw[i].id in on.smooth && on.smooth[raw[i].id] == NextLevel(0.0, raw[i].level))
            && (on.active.Some? <==> exists i :: 0 <= i < |raw| && NextLevel(0.0, raw[i].level) >= 0.14)
  {
    BestIsLoudest(map[], raw);
    var on := Tick(Disable(s), raw, now);
    forall i | 0 <= i < |raw| ensures raw[i].id in on.smooth && on.smooth[raw[i].id] == NextLevel(0.0, raw[i].level) {
      SmoothedAt(map[], raw, i);
    }
    hide Smoothed, Best, NextLevel, Distinct;
    if on.active.Some? {
      var i :| 0 <= i < |raw| && raw[i].id == on.active.value;
      assert NextLevel(0.0, raw[i].level) >= 0.14;
    }
  }
}
