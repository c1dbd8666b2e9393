/** The session store of services/game-service/internal/services/game_service.go:
    a map from session id to Game that starts games, dispatches player
    requests to them and reads them back. Requests are modelled one at a time
    (the store's lock only serialises them) and the session id is supplied by
    the caller instead of being drawn at random. */
module Services {
  import opened GameModel
  import Domain

  /** One request to MakeMove, without its session id. */
  datatype Request = Request(action: string, direction: string)

  /** What MakeMove does to the game it found: the requested action, and then,
      if the action succeeded, exactly one tick. */
  function Perform(g: GameState, action: string, direction: string): (r: Result<GameState>)
    ensures r.Err? ==> r.error == GameOver || r.error == InvalidMove
    ensures r.Ok? ==> r.value.id == g.id && r.value.score >= g.score && r.value.level >= g.level
  {
    if action == "move" then
      match MovePlayer(g, direction)
      case Ok(moved) => Ok(Update(moved))
      case Err(e) => Err(e)
    else if action == "shoot" then
      match Shoot(g)
      case Ok(armed) => Ok(Update(armed))
      case Err(e) => Err(e)
    else if action == "update" then
      Ok(Update(g))
    else
      Err(InvalidMove)
  }

  /** An unknown action is refused before anything happens; an action that
      fails returns its own error and skips the tick. */
  lemma FailedActionSkipsTick(g: GameState, action: string, direction: string)
    ensures action != "move" && action != "shoot" && action != "update" ==>
      Perform(g, action, direction) == Err(InvalidMove)
    ensures action == "move" && MovePlayer(g, direction).Err? ==>
      Perform(g, action, direction) == Err(MovePlayer(g, direction).error)
    ensures action == "shoot" && Shoot(g).Err? ==> Perform(g, action, direction) == Err(GameOver)
  {
  }

  /** A successful request is its action followed by exactly one tick. */
  lemma SuccessIsActionThenOneTick(g: GameState, action: string, direction: string)
    requires Perform(g, action, direction).Ok?
    ensures action == "move" || action == "shoot" || action == "update"
    ensures action == "move" ==>
      MovePlayer(g, direction).Ok? && Perform(g, action, direction).value == Update(MovePlayer(g, direction).value)
    ensures action == "shoot" ==>
      Shoot(g).Ok? && Perform(g, action, direction).value == Update(Shoot(g).value)
    ensures action == "update" ==> Perform(g, action, direction).value == Update(g)
  {
  }

  /** A bare tick is always accepted, and leaves a finished game as it is. */
  lemma TickAlwaysAccepted(g: GameState, direction: string)
    ensures Perform(g, "update", direction) == Ok(Update(g))
    ensures g.status != Active ==> Perform(g, "update", direction) == Ok(g)
  {
  }

  lemma PerformKeepsInv(g: GameState, action: string, direction: string)
    requires Inv(g)
    ensures Perform(g, action, direction).Ok? ==> Inv(Perform(g, action, direction).value)
  {
    if action == "move" && MovePlayer(g, direction).Ok? {
      MovePlayerKeepsInv(g, direction);
      UpdateKeepsInv(MovePlayer(g, direction).value);
    } else if action == "shoot" && Shoot(g).Ok? {
      ShootKeepsInv(g);
      UpdateKeepsInv(Shoot(g).value);
    } else if action == "update" {
      UpdateKeepsInv(g);
    }
  }

  /** A session's game after a sequence of requests, each answered in turn. */
  function Replay(g: GameState, requests: seq<Request>): GameState
    decreases |requests|
  {
    if requests == [] then g
    else
      var next := match Perform(g, requests[0].action, requests[0].direction)
                  case Ok(h) => h
                  case Err(_) => g;
      Replay(next, requests[1..])
  }

  lemma {:induction false} ReplayKeepsInv(g: GameState, requests: seq<Request>)
    requires Inv(g)
    ensures Inv(Replay(g, requests))
    decreases |requests|
  {
    if requests != [] {
      var r := requests[0];
      PerformKeepsInv(g, r.action, r.direction);
      var next := match Perform(g, r.action, r.direction) case Ok(h) => h case Err(_) => g;
      ReplayKeepsInv(next, requests[1..]);
    }
  }

  /** Over a session's lifetime the id never changes and neither the score
      nor the level ever goes down. */
  lemma {:induction false} ReplayNeverDecreases(g: GameState, requests: seq<Request>)
    ensures var h := Replay(g, requests);
      h.id == g.id && h.score >= g.score && h.level >= g.level
    decreases |requests|
  {
    if requests != [] {
      var r := requests[0];
      var next := match Perform(g, r.action, r.direction) case Ok(h) => h case Err(_) => g;
      ReplayNeverDecreases(next, requests[1..]);
    }
  }

  /** Once a game is over, no sequence of requests changes it. */
  lemma {:induction false} FinishedGameStaysFinished(g: GameState, requests: seq<Request>)
    requires g.status != Active
    ensures Replay(g, requests) == g
    decreases |requests|
  {
    if requests != [] {
      var r := requests[0];
      var next := match Perform(g, r.action, r.direction) case Ok(h) => h case Err(_) => g;
      assert next == g;
      FinishedGameStaysFinished(g, requests[1..]);
    }
  }

  /** No sequence of requests ever wins a game: a cleared field only starts
      the next level. */
  lemma WonIsUnreachable(id: string, requests: seq<Request>)
    ensures Replay(NewGame(id), requests).status != Won
  {
    ReplayKeepsInv(NewGame(id), requests);
  }

  /** The action switch of MakeMove applied to the game it found: the player
      action, then, unless that failed, one tick. */
  method Dispatch(game: Domain.Game, action: string, direction: string) returns (err: Option<Error>)
    modifies game
    ensures match Perform(old(game.State()), action, direction)
      case Ok(h) => err == None && game.State() == h
      case Err(e) => err == Some(e) && game.State() == old(game.State())
  {
    if action == "move" {
      err := game.MovePlayer(direction);
    } else if action == "shoot" {
      err := game.Shoot();
    } else if action == "update" {
      // No player action: only the tick below.
      err := None;
    } else {
      return Some(InvalidMove);
    }
    if err.Some? {
      return;
    }
    game.Update();
  }

  class GameService {
    var games: map<string, Domain.Game>

    /** The games the store holds, as snapshots. */
    ghost function Snapshot(): map<string, GameState>
      reads this, games.Values
    {
      map k | k in games :: games[k].State()
    }

    /** No two sessions share a Game object, and every stored game is filed
        under its own id and is in a reachable state. */
    ghost predicate Valid()
      reads this, games.Values
    {
      && (forall k, k' :: k in games && k' in games && k != k' ==> games[k] != games[k'])
      && (forall k :: k in games ==> games[k].id == k && Inv(games[k].State()))
    }

    constructor ()
      ensures Valid() && games == map[]
    {
      games := map[];
    }

    /** Starts a game under `id`; an existing game under the same id is
        silently replaced. */
    method StartGame(id: string) returns (game: Domain.Game)
      requires Valid()
      modifies this
      ensures Valid() && fresh(game)
      ensures games == old(games)[id := game]
      ensures Snapshot() == old(Snapshot())[id := NewGame(id)]
    {
      ghost var before := Snapshot();
      game := new Domain.Game(id);
      games := games[id := game];
      forall k | k in games
        ensures k in before[id := NewGame(id)] && Snapshot()[k] == before[id := NewGame(id)][k]
      {
        if k != id {
          assert games[k] == old(games)[k];
        }
      }
      assert Snapshot() == before[id := NewGame(id)];
    }

    /** Looks the session up, then dispatches the request to its game; no
        other game is touched. */
    method MakeMove(id: string, action: string, direction: string) returns (r: Result<Domain.Game>)
      requires Valid()
      modifies if id in games then {games[id]} else {}
      ensures Valid() && games == old(games)
      ensures id !in games ==> r == Err(GameNotFound)
      ensures id in games ==>
        match Perform(old(games[id].State()), action, direction)
        case Ok(h) => r == Ok(games[id]) && games[id].State() == h
        case Err(e) => r == Err(e) && games[id].State() == old(games[id].State())
      ensures forall k :: k in games && k != id ==> games[k].State() == old(games[k].State())
    {
      if id !in games {
        return Err(GameNotFound);
      }
      var game := games[id];
      var err := Dispatch(game, action, direction);
      PerformKeepsInv(old(game.State()), action, direction);
      if err.Some? {
        return Err(err.value);
      }
      return Ok(game);
    }

    method GetGameStatus(id: string) returns (r: Result<Domain.Game>)
      ensures r == if id in games then Ok(games[id]) else Err(GameNotFound)
      ensures r.Ok? ==> id in Snapshot() && r.value.State() == Snapshot()[id]
    {
      if id !in games {
        return Err(GameNotFound);
      }
      return Ok(games[id]);
    }
  }
}
