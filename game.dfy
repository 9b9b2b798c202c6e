/** The session: whether the game has started and the score. The player and
    the level are mounted only while started; the orbit camera controls are
    enabled only before. */
module Game {

  datatype SessionState = SessionState(gameStarted: bool, score: int)

  function Initial(): (s: SessionState)
    ensures !s.gameStarted && s.score == 0
  {
    SessionState(false, 0)
  }

  /** The "Start Game" button. */
  function StartedSession(s: SessionState): (r: SessionState)
    ensures r.gameStarted && r.score == 0
  {
    SessionState(true, 0)
  }

  /** The `incrementScore` callback handed to the player. */
  function ScoreIncremented(s: SessionState): (r: SessionState)
    ensures r.gameStarted == s.gameStarted && r.score == s.score + 1
  {
    s.(score := s.score + 1)
  }

  /** Player and Level are in the scene only while the game is started. */
  predicate SceneMounted(s: SessionState) {
    s.gameStarted
  }

  /** The orbit controls are enabled only before the game is started. */
  predicate OrbitControlsEnabled(s: SessionState) {
    !s.gameStarted
  }

  /** The title overlay with the start button shows exactly while the orbit
      controls are enabled; otherwise the score overlay shows. */
  function ShownOverlay(s: SessionState): (r: Overlay)
    ensures r.StartScreen? <==> OrbitControlsEnabled(s)
    ensures r.ScoreBoard? ==> r.score == s.score && SceneMounted(s)
  {
    if !s.gameStarted then StartScreen else ScoreBoard(s.score)
  }

  datatype Overlay = StartScreen | ScoreBoard(score: int)

  datatype Command = Start | Increment

  function Run(s: SessionState, commands: seq<Command>): SessionState {
    if commands == [] then s
    else
      var before := Run(s, commands[..|commands| - 1]);
      match commands[|commands| - 1]
      case Start => StartedSession(before)
      case Increment => ScoreIncremented(before)
  }

  /** The number of increments since the last start (all of them when there
      was none). */
  function IncrementsSinceStart(commands: seq<Command>): nat {
    if commands == [] then 0
    else if commands[|commands| - 1] == Start then 0
    else IncrementsSinceStart(commands[..|commands| - 1]) + 1
  }

  /** There is no way back to the start screen: the game is started after a
      run exactly when it was started before or the run contains a start. */
  lemma {:induction false} StartedIsPermanent(s: SessionState, commands: seq<Command>)
    ensures Run(s, commands).gameStarted <==> s.gameStarted || Start in commands
  {
    if commands != [] {
      var prefix := commands[..|commands| - 1];
      StartedIsPermanent(s, prefix);
      assert commands == prefix + [commands[|commands| - 1]];
    }
  }

  /** The score counts the increments since the last start, on top of the
      initial score when there was no start. */
  lemma {:induction false} ScoreCountsIncrements(s: SessionState, commands: seq<Command>)
    ensures Run(s, commands).score == (if Start in commands then 0 else s.score) + IncrementsSinceStart(commands)
  {
    if commands != [] {
      var prefix := commands[..|commands| - 1];
      ScoreCountsIncrements(s, prefix);
      assert commands == prefix + [commands[|commands| - 1]];
    }
  }

  /** The `Game` component's two pieces of state. */
  class Session {
    var gameStarted: bool
    var score: int

    function State(): SessionState
      reads this
    {
      SessionState(gameStarted, score)
    }

    constructor ()
      ensures State() == Initial()
    {
      gameStarted := false;
      score := 0;
    }

    method StartGame()
      modifies this
      ensures State() == StartedSession(old(State()))
    {
      gameStarted := true;
      score := 0;
    }

    method IncrementScore()
      modifies this
      ensures State() == ScoreIncremented(old(State()))
    {
      score := score + 1;
    }
  }
}
