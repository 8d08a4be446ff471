/** The clicker arena's session: the player's name, the click counters,
    the digital-life mode flag and the rank shown beside them. Each event
    handler of the arena is a function from the old session to the new one;
    class Arena holds the same state in fields and its methods are proved to
    follow those functions. Timers and document listeners are not modelled
    as such: every timer tick and every document click is an event that the
    caller delivers, and random choices are arguments with their range. */
module ClickerArena {
  import opened Leaderboard

  // ---------------------------------------------------------------------
  // String.prototype.trim

  /** The characters JavaScript's trim removes: white space and line
      terminators. */
  predicate IsJsSpace(c: char) {
    c in {'\t', '\n', '\U{000B}', '\U{000C}', '\r', ' ', '\U{00A0}', '\U{1680}',
          '\U{2000}', '\U{2001}', '\U{2002}', '\U{2003}', '\U{2004}', '\U{2005}',
          '\U{2006}', '\U{2007}', '\U{2008}', '\U{2009}', '\U{200A}', '\U{2028}',
          '\U{2029}', '\U{202F}', '\U{205F}', '\U{3000}', '\U{FEFF}'}
  }

  /** A name made of nothing but white space (or of nothing at all). */
  predicate IsBlank(s: string) {
    forall i :: 0 <= i < |s| ==> IsJsSpace(s[i])
  }

  /** Drops the leading white space: the result is a suffix of s that does
      not start with white space, and everything dropped was white space. */
  function TrimStart(s: string): (r: string)
    ensures |r| <= |s| && r == s[|s| - |r|..]
    ensures r == [] || !IsJsSpace(r[0])
    ensures forall i :: 0 <= i < |s| - |r| ==> IsJsSpace(s[i])
  {
    if s != [] && IsJsSpace(s[0]) then
      var r := TrimStart(s[1..]);
      assert forall i :: 1 <= i < |s| ==> s[i] == s[1..][i - 1];
      r
    else s
  }

  /** Drops the trailing white space: the result is a prefix of s that does
      not end with white space, and everything dropped was white space. */
  function TrimEnd(s: string): (r: string)
    ensures |r| <= |s| && r == s[..|r|]
    ensures r == [] || !IsJsSpace(r[|r| - 1])
    ensures forall i :: |r| <= i < |s| ==> IsJsSpace(s[i])
  {
    if s != [] && IsJsSpace(s[|s| - 1]) then
      var r := TrimEnd(s[..|s| - 1]);
      assert forall i :: 0 <= i < |s| - 1 ==> s[i] == s[..|s| - 1][i];
      r
    else s
  }

  function Trim(s: string): string {
    TrimEnd(TrimStart(s))
  }

  /** The trimmed name is empty exactly when the name is blank. */
  lemma TrimEmptyIffBlank(s: string)
    ensures Trim(s) == [] <==> IsBlank(s)
  {
    var t := TrimStart(s);
    if Trim(s) == [] && t != [] {
      assert false;
    }
  }

  // ---------------------------------------------------------------------
  // Digital-life activities

  /** The simulated activities, one of which is picked at random per tick. */
  datatype Activity = GoogleSearch | GamingSession | FileNavigation | WebBrowsing | EmailCheck

  /** Fewest clicks an activity adds. */
  function Base(a: Activity): nat {
    match a
    case GamingSession => 2
    case _ => 1
  }

  /** How many different click counts an activity can add: the factor
      Math.random() is multiplied by before flooring. */
  function Spread(a: Activity): nat {
    match a
    case GoogleSearch => 3
    case GamingSession => 8
    case FileNavigation => 4
    case WebBrowsing => 6
    case EmailCheck => 3
  }

  /** Clicks an activity adds, `roll` being the floored random part. */
  function ActivityClicks(a: Activity, roll: nat): (n: nat)
    requires roll < Spread(a)
    ensures 1 <= n <= 9
  {
    Base(a) + roll
  }

  /** Every increment from 1 to 9 is one some activity can add. */
  lemma EveryIncrementOccurs(n: nat)
    requires 1 <= n <= 9
    ensures n == 1 ==> ActivityClicks(GoogleSearch, 0) == n
    ensures n >= 2 ==> n - 2 < Spread(GamingSession) && ActivityClicks(GamingSession, n - 2) == n
  {
  }

  // ---------------------------------------------------------------------
  // Session state and transitions

  datatype Session = Session(
    clicks: nat,
    backgroundClicks: nat,
    isGameActive: bool,
    playerName: string,
    currentRank: nat,
    digitalLifeMode: bool)

  /** The state the arena starts in. */
  const Idle := Session(0, 0, false, "", 0, false)

  /** The rank effect, run after every change of the click count or of the
      active flag: while a game is on and at least one click is counted the
      rank is recomputed from the board; otherwise the old rank stays. */
  function RankSynced(board: seq<Player>, s: Session): Session {
    if s.isGameActive && s.clicks > 0 then s.(currentRank := Rank(board, s.clicks)) else s
  }

  /** Typing into the name field. */
  function Renamed(s: Session, name: string): Session {
    s.(playerName := name)
  }

  /** startGame: refused for a blank name, otherwise a fresh game with both
      counters at zero. */
  function Started(board: seq<Player>, s: Session): Session {
    if Trim(s.playerName) == [] then s
    else RankSynced(board, s.(isGameActive := true, clicks := 0, backgroundClicks := 0))
  }

  /** handleClick: one click while a game is on. */
  function Clicked(board: seq<Player>, s: Session): Session {
    if !s.isGameActive then s
    else RankSynced(board, s.(clicks := s.clicks + 1))
  }

  /** The document-wide click listener: registered only while a game is on,
      and counting a click only in digital-life mode. */
  function GlobalClicked(board: seq<Player>, s: Session): Session {
    if s.isGameActive && s.digitalLifeMode then RankSynced(board, s.(clicks := s.clicks + 1))
    else s
  }

  /** One digital-life tick adding n clicks to both counters. The timer is
      armed only while a game is on in digital-life mode. */
  function Ticked(board: seq<Player>, s: Session, n: nat): Session {
    if s.isGameActive && s.digitalLifeMode then
      RankSynced(board, s.(clicks := s.clicks + n, backgroundClicks := s.backgroundClicks + n))
    else s
  }

  /** toggleDigitalLifeMode. */
  function Toggled(s: Session): Session {
    s.(digitalLifeMode := !s.digitalLifeMode)
  }

  /** resetGame: ends the game and clears the name, the click count and the
      rank, but keeps the background count and the digital-life mode. */
  function Reset(board: seq<Player>, s: Session): Session {
    RankSynced(board, s.(isGameActive := false, clicks := 0, playerName := "", currentRank := 0))
  }

  /** Everything that can happen to the arena. */
  datatype Event =
    | EnterName(name: string)
    | Start
    | Click
    | DocumentClick
    | Tick(n: nat)
    | Toggle
    | Retreat

  function Step(board: seq<Player>, s: Session, e: Event): Session {
    match e
    case EnterName(name) => Renamed(s, name)
    case Start => Started(board, s)
    case Click => Clicked(board, s)
    case DocumentClick => GlobalClicked(board, s)
    case Tick(n) => Ticked(board, s, n)
    case Toggle => Toggled(s)
    case Retreat => Reset(board, s)
  }

  /** Which events can reach the arena in a state: the name field and the
      start button are shown only while no game is on, the click, mode and
      retreat buttons only while one is; a tick adds 1 to 9 clicks. */
  predicate Enabled(s: Session, e: Event) {
    match e
    case EnterName(_) => !s.isGameActive
    case Start => !s.isGameActive
    case Click => s.isGameActive
    case Toggle => s.isGameActive
    case Retreat => s.isGameActive
    case Tick(n) => 1 <= n <= 9
    case DocumentClick => true
  }

  /** The state after a series of events; an event that cannot reach the
      arena in the state at hand is dropped. */
  function Run(board: seq<Player>, s: Session, events: seq<Event>): Session
    decreases |events|
  {
    if events == [] then s
    else Run(board, if Enabled(s, events[0]) then Step(board, s, events[0]) else s, events[1..])
  }

  /** What holds of every session the arena can reach. */
  predicate Inv(board: seq<Player>, s: Session) {
    && s.currentRank <= |board| + 1
    && (s.isGameActive ==> !IsBlank(s.playerName))
    && (!s.isGameActive ==> s.clicks == 0)
    && (s.isGameActive ==> s.backgroundClicks <= s.clicks)
    && (s.isGameActive && s.clicks > 0 ==> s.currentRank == Rank(board, s.clicks))
  }

  // ---------------------------------------------------------------------
  // The arena component

  /** The arena's state as the component holds it, one field per piece of
      state; each handler updates the fields in place. */
  class Arena {
    const leaderboard: seq<Player>
    var clicks: nat
    var backgroundClicks: nat
    var isGameActive: bool
    var playerName: string
    var currentRank: nat
    var digitalLifeMode: bool

    function Snapshot(): Session
      reads this
    {
      Session(clicks, backgroundClicks, isGameActive, playerName, currentRank, digitalLifeMode)
    }

    predicate Valid()
      reads this
    {
      Inv(leaderboard, Snapshot())
    }

    /** The arena as mounted, with the leaderboard it loads. */
    constructor (board: seq<Player>)
      ensures leaderboard == board && Snapshot() == Idle && Valid()
    {
      leaderboard := board;
      clicks, backgroundClicks, isGameActive := 0, 0, false;
      playerName, currentRank, digitalLifeMode := "", 0, false;
    }

    /** The rank effect, run after a handler changed the clicks or the
        active flag. */
    method UpdateRank()
      modifies this
      ensures Snapshot() == RankSynced(leaderboard, old(Snapshot()))
    {
      if isGameActive && clicks > 0 {
        currentRank := Rank(leaderboard, clicks);
      }
    }

    /** The name field's change handler; the field is shown only while no
        game is on. */
    method SetPlayerName(name: string)
      requires Valid() && !isGameActive
      modifies this
      ensures Valid() && Snapshot() == Renamed(old(Snapshot()), name)
    {
      playerName := name;
    }

    method StartGame()
      requires Valid()
      modifies this
      ensures Valid() && Snapshot() == Started(leaderboard, old(Snapshot()))
    {
      TrimEmptyIffBlank(playerName);
      if Trim(playerName) != [] {
        isGameActive := true;
        clicks := 0;
        backgroundClicks := 0;
        UpdateRank();
      }
    }

    method HandleClick()
      requires Valid()
      modifies this
      ensures Valid() && Snapshot() == Clicked(leaderboard, old(Snapshot()))
    {
      if !isGameActive {
        return;
      }
      clicks := clicks + 1;
      UpdateRank();
    }

    /** The document click listener. */
    method HandleGlobalClick()
      requires Valid()
      modifies this
      ensures Valid() && Snapshot() == GlobalClicked(leaderboard, old(Snapshot()))
    {
      if isGameActive && digitalLifeMode {
        clicks := clicks + 1;
        UpdateRank();
      }
    }

    /** One digital-life tick: the random pick of an activity and of its
        click count are the arguments. */
    method SimulateDigitalLife(activity: Activity, roll: nat)
      requires Valid() && roll < Spread(activity)
      modifies this
      ensures Valid()
      ensures Snapshot() == Ticked(leaderboard, old(Snapshot()), ActivityClicks(activity, roll))
    {
      var newClicks := ActivityClicks(activity, roll);
      if isGameActive && digitalLifeMode {
        backgroundClicks := backgroundClicks + newClicks;
        clicks := clicks + newClicks;
        UpdateRank();
      }
    }

    method ToggleDigitalLifeMode()
      requires Valid()
      modifies this
      ensures Valid() && Snapshot() == Toggled(old(Snapshot()))
    {
      digitalLifeMode := !digitalLifeMode;
    }

    method ResetGame()
      requires Valid()
      modifies this
      ensures Valid() && Snapshot() == Reset(leaderboard, old(Snapshot()))
    {
      isGameActive := false;
      clicks := 0;
      playerName := "";
      currentRank := 0;
      UpdateRank();
    }
  }

  // ---------------------------------------------------------------------
  // Properties

  /** Every event the arena can receive keeps the invariant. */
  lemma StepPreservesInv(board: seq<Player>, s: Session, e: Event)
    requires Inv(board, s) && Enabled(s, e)
    ensures Inv(board, Step(board, s, e))
  {
    if e.Start? {
      TrimEmptyIffBlank(s.playerName);
    }
  }

  /** Every session reached from a good one by any series of events is good. */
  lemma {:induction false} RunPreservesInv(board: seq<Player>, s: Session, events: seq<Event>)
    requires Inv(board, s)
    ensures Inv(board, Run(board, s, events))
    decreases |events|
  {
    if events != [] {
      var next := if Enabled(s, events[0]) then Step(board, s, events[0]) else s;
      if Enabled(s, events[0]) {
        StepPreservesInv(board, s, events[0]);
      }
      RunPreservesInv(board, next, events[1..]);
    }
  }

  /** Every session the arena reaches from its start is good: a running
      game has a non-blank name, no more background clicks than clicks and
      the rank its clicks give; an idle arena counts no clicks. */
  lemma Reachable(board: seq<Player>, events: seq<Event>)
    ensures Inv(board, Run(board, Idle, events))
  {
    RunPreservesInv(board, Idle, events);
  }

  /** startGame does nothing for a blank name; for any other name it starts
      a game with both counters at zero and keeps the name, the mode and the
      rank shown. */
  lemma StartGameSpec(board: seq<Player>, s: Session)
    ensures IsBlank(s.playerName) ==> Started(board, s) == s
    ensures !IsBlank(s.playerName) ==>
      Started(board, s) == s.(isGameActive := true, clicks := 0, backgroundClicks := 0)
  {
    TrimEmptyIffBlank(s.playerName);
  }

  /** A click counts exactly one while a game is on and nothing otherwise;
      it never changes the background count. */
  lemma HandleClickSpec(board: seq<Player>, s: Session)
    ensures var r := Clicked(board, s);
      && (!s.isGameActive ==> r == s)
      && r.(clicks := s.clicks, currentRank := s.currentRank) == s
      && r.backgroundClicks == s.backgroundClicks
      && r.clicks == (if s.isGameActive then s.clicks + 1 else s.clicks)
      && r.currentRank == (if s.isGameActive then Rank(board, s.clicks + 1) else s.currentRank)
  {
  }

  /** A document click counts one only in a running game in digital-life
      mode, and never touches the background count; only the click count
      and the rank can change. */
  lemma GlobalClickSpec(board: seq<Player>, s: Session)
    ensures var r := GlobalClicked(board, s);
      && r.(clicks := s.clicks, currentRank := s.currentRank) == s
      && r.backgroundClicks == s.backgroundClicks
      && (r.clicks == s.clicks + 1 <==> s.isGameActive && s.digitalLifeMode)
      && (r.clicks == s.clicks <==> !(s.isGameActive && s.digitalLifeMode))
  {
  }

  /** A tick changes the background count exactly when a game is on in
      digital-life mode, and then adds the same n to both counters; only
      the two counters and the rank can change. */
  lemma TickSpec(board: seq<Player>, s: Session, n: nat)
    requires 1 <= n <= 9
    ensures var r := Ticked(board, s, n);
      && r.(clicks := s.clicks, backgroundClicks := s.backgroundClicks, currentRank := s.currentRank) == s
      && (r.backgroundClicks != s.backgroundClicks <==> s.isGameActive && s.digitalLifeMode)
      && r.clicks - r.backgroundClicks == s.clicks - s.backgroundClicks
      && (r.backgroundClicks != s.backgroundClicks ==> r.backgroundClicks == s.backgroundClicks + n)
  {
  }

  /** resetGame, from any state, leaves a good idle arena with no name, no
      clicks and no rank; the background count and the mode survive it. */
  lemma ResetSpec(board: seq<Player>, s: Session)
    ensures var r := Reset(board, s);
      && Inv(board, r)
      && !r.isGameActive && r.clicks == 0 && r.playerName == [] && r.currentRank == 0
      && r.backgroundClicks == s.backgroundClicks && r.digitalLifeMode == s.digitalLifeMode
  {
  }

  /** A reset clears the name, so starting again straight away is refused. */
  lemma StartAfterResetRefused(board: seq<Player>, s: Session)
    ensures Started(board, Reset(board, s)) == Reset(board, s)
  {
  }

  /** The rank shown changes only by a reset (to 0) or to the rank of the
      new click count in a running game. */
  lemma RankChangesOnlyWhenPlaying(board: seq<Player>, s: Session, e: Event)
    ensures var r := Step(board, s, e);
      r.currentRank != s.currentRank ==>
        (e.Retreat? && r.currentRank == 0) ||
        (r.isGameActive && r.clicks > 0 && r.currentRank == Rank(board, r.clicks))
  {
  }

  /** Clicks only, ticks and document clicks. */
  predicate InGame(e: Event) {
    e.Click? || e.DocumentClick? || (e.Tick? && 1 <= e.n <= 9)
  }

  function ButtonClicks(events: seq<Event>): nat {
    if events == [] then 0 else (if events[0].Click? then 1 else 0) + ButtonClicks(events[1..])
  }

  function DocumentClicks(events: seq<Event>): nat {
    if events == [] then 0 else (if events[0].DocumentClick? then 1 else 0) + DocumentClicks(events[1..])
  }

  function TickTotal(events: seq<Event>): nat {
    if events == [] then 0 else (if events[0].Tick? then events[0].n else 0) + TickTotal(events[1..])
  }

  /** During a game, the click count grows by one per button click; in
      digital-life mode also by one per document click and by every tick's
      increment, which are also exactly what the background count gains.
      Outside digital-life mode the background count does not move. */
  lemma {:induction false} ClickAccounting(board: seq<Player>, s: Session, events: seq<Event>)
    requires s.isGameActive
    requires forall i :: 0 <= i < |events| ==> InGame(events[i])
    ensures var r := Run(board, s, events);
      && r.isGameActive && r.digitalLifeMode == s.digitalLifeMode
      && r.clicks == s.clicks + ButtonClicks(events)
           + (if s.digitalLifeMode then DocumentClicks(events) + TickTotal(events) else 0)
      && r.backgroundClicks == s.backgroundClicks + (if s.digitalLifeMode then TickTotal(events) else 0)
    decreases |events|
  {
    if events != [] {
      var next := Step(board, s, events[0]);
      assert InGame(events[0]);
      ClickAccounting(board, next, events[1..]);
    }
  }

  /** A press of the arena's own button is also a document click, so in
      digital-life mode it counts twice, otherwise once. */
  lemma ButtonPressCount(board: seq<Player>, s: Session)
    requires s.isGameActive
    ensures Run(board, s, [Click, DocumentClick]).clicks ==
      s.clicks + (if s.digitalLifeMode then 2 else 1)
  {
    assert [Click, DocumentClick][1..] == [DocumentClick];
  }

  // ---------------------------------------------------------------------
  // The re-armed digital-life timer, as written

  /** The digital-life tick as the arena's code actually behaves once its
      first timeout has fired: the tick re-arms itself with a fresh timeout
      whose id is dropped, and the effect's cleanup clears only the first
      timeout, so every later tick adds clicks whatever the mode and whether
      or not a game is on. */
  function RearmedTickAsWritten(board: seq<Player>, s: Session, n: nat): Session {
    RankSynced(board, s.(clicks := s.clicks + n, backgroundClicks := s.backgroundClicks + n))
  }

  /** The scenario: Ada starts, turns digital-life mode on, the first tick
      (3 clicks) fires and schedules the next one, and she turns the mode
      off again. */
  function ModeSwitchedOffAfterTick(board: seq<Player>): Session {
    Toggled(Ticked(board, Toggled(Started(board, Renamed(Idle, "Ada"))), 3))
  }

  /** In that scenario the re-armed tick still adds 5 background clicks
      with the mode off, where the intended tick does nothing. */
  lemma RearmedTickIgnoresMode(board: seq<Player>)
    ensures var s := ModeSwitchedOffAfterTick(board);
      && s.isGameActive && !s.digitalLifeMode && s.backgroundClicks == 3
      && RearmedTickAsWritten(board, s, 5).backgroundClicks == 8
      && Ticked(board, s, 5) == s
  {
    var s1 := Started(board, Renamed(Idle, "Ada"));
    assert Trim("Ada") != [] by {
      TrimEmptyIffBlank("Ada");
      assert !IsJsSpace("Ada"[0]);
    }
    assert s1 == Session(0, 0, true, "Ada", 0, false);
    var s3 := Ticked(board, Toggled(s1), 3);
    assert s3 == Session(3, 3, true, "Ada", Rank(board, 3), true);
  }

  /** After a retreat the re-armed tick leaves an idle arena that counts
      clicks, which no intended event can produce. */
  lemma RearmedTickOutlivesReset(board: seq<Player>)
    ensures var s := Reset(board, ModeSwitchedOffAfterTick(board));
      && Inv(board, s)
      && !Inv(board, RearmedTickAsWritten(board, s, 5))
      && Ticked(board, s, 5) == s
  {
  }
}
