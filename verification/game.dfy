/** The Game object of services/game-service/internal/domain/game.go: its
    fields are updated in place by MovePlayer, Shoot, Update and nextLevel,
    whose loops are the source's own. Each method is proved to leave the object
    in the state the matching GameModel function computes from the state before
    the call. */
module Domain {
  import opened GameModel

  class Game {
    const id: string
    var score: int
    var level: int
    var player: GameObject
    var enemies: seq<GameObject>
    var bullets: seq<GameObject>
    var status: Status

    /** The snapshot of this game (what the service hands back to clients). */
    function State(): GameState
      reads this
    {
      GameState(id, score, level, player, enemies, bullets, status)
    }

    constructor (id: string)
      ensures State() == NewGame(id)
    {
      var g := NewGame(id);
      this.id := id;
      score, level, player := g.score, g.level, g.player;
      enemies, bullets, status := g.enemies, g.bullets, g.status;
    }

    method MovePlayer(direction: string) returns (err: Option<Error>)
      modifies this`player
      ensures match GameModel.MovePlayer(old(State()), direction)
        case Ok(moved) => err == None && State() == moved
        case Err(e) => err == Some(e) && State() == old(State())
    {
      if status != Active {
        return Some(GameOver);
      }
      if direction == "left" {
        if player.position.x > LeftLimit {
          player := player.(position := player.position.(x := player.position.x - MoveStep));
        }
      } else if direction == "right" {
        if player.position.x < RightLimit {
          player := player.(position := player.position.(x := player.position.x + MoveStep));
        }
      } else {
        return Some(InvalidMove);
      }
      return None;
    }

    method Shoot() returns (err: Option<Error>)
      modifies this`bullets
      ensures match GameModel.Shoot(old(State()))
        case Ok(armed) => err == None && State() == armed
        case Err(e) => err == Some(e) && State() == old(State())
    {
      if status != Active {
        return Some(GameOver);
      }
      var bullet := GameObject("bullet", Position(player.position.x, player.position.y - MuzzleOffset), true);
      bullets := bullets + [bullet];
      return None;
    }

    /** One tick. The source runs the stages below inline, in this order,
        and returns as soon as the descent loses the game. */
    method Update()
      modifies this
      ensures State() == GameModel.Update(old(State()))
    {
      if status != Active {
        return;
      }
      ghost var g0 := State();
      MoveBullets();
      var lost := MoveEnemies();
      if lost {
        return;
      }
      assert FirstCrossing(g0.enemies) == |g0.enemies|;
      assert enemies == Descend(g0.enemies, |g0.enemies|);
      CheckCollisions();
      assert Melee(bullets, enemies, score) == Collide(g0);
      RemoveInactiveBullets();
      ghost var next := State();
      assert next == g0.(bullets := Sweep(Collide(g0).bullets), enemies := Collide(g0).enemies, score := Collide(g0).score);
      var allEnemiesDestroyed := AllEnemiesDestroyed();
      if allEnemiesDestroyed {
        NextLevel();
      }
    }

    /** Moves bullets up, dropping the ones that leave the top of the field. */
    method MoveBullets()
      modifies this`bullets
      ensures bullets == AdvanceBullets(old(bullets))
    {
      var activeBullets: seq<GameObject> := [];
      for i := 0 to |bullets|
        invariant activeBullets == AdvanceBullets(bullets[..i])
      {
        assert bullets[..i + 1][..i] == bullets[..i];
        if bullets[i].active {
          var moved := Raised(bullets[i]);
          if moved.position.y >= 0 {
            activeBullets := activeBullets + [moved];
          }
        }
      }
      assert bullets[..|bullets|] == bullets;
      bullets := activeBullets;
    }

    /** Moves live enemies down; the first one past the defence line loses
        the game and stops the loop, leaving later enemies where they were. */
    method MoveEnemies() returns (lost: bool)
      modifies this`enemies, this`status
      ensures var k := FirstCrossing(old(enemies));
        && lost == (k < |old(enemies)|)
        && enemies == Descend(old(enemies), if lost then k + 1 else |old(enemies)|)
        && status == (if lost then Lost else old(status))
    {
      ghost var es0 := enemies;
      for i := 0 to |enemies|
        invariant |enemies| == |es0| && status == old(status)
        invariant enemies == Descend(es0, i)
        invariant forall j :: 0 <= j < i ==> !Crosses(es0[j])
      {
        if enemies[i].active {
          enemies := enemies[i := Lowered(enemies[i])];
          if enemies[i].position.y > DefenseLine {
            status := Lost;
            assert enemies == Descend(es0, i + 1);
            assert Crosses(es0[i]);
            return true;
          }
        }
        assert enemies == Descend(es0, i + 1);
      }
      assert forall j :: 0 <= j < |es0| ==> !Crosses(es0[j]);
      assert FirstCrossing(es0) == |es0|;
      return false;
    }

    /** Each bullet takes out at most the first live enemy it overlaps. */
    method CheckCollisions()
      modifies this`bullets, this`enemies, this`score
      ensures Melee(bullets, enemies, score) == Resolve(old(Melee(bullets, enemies, score)), |old(bullets)|)
    {
      ghost var m0 := Melee(bullets, enemies, score);
      for i := 0 to |bullets|
        invariant Melee(bullets, enemies, score) == Resolve(m0, i)
      {
        ghost var before := Melee(bullets, enemies, score);
        for j := 0 to |enemies|
          invariant bullets == before.bullets && enemies == before.enemies && score == before.score
          invariant forall jj :: 0 <= jj < j ==> !(enemies[jj].active && CheckCollision(bullets[i], enemies[jj]))
        {
          if !enemies[j].active {
            continue;
          }
          if CheckCollision(bullets[i], enemies[j]) {
            bullets := bullets[i := Deactivated(bullets[i])];
            enemies := enemies[j := Deactivated(enemies[j])];
            score := score + KillPoints;
            break;
          }
        }
      }
    }

    /** Removes the bullets that hit something. */
    method RemoveInactiveBullets()
      modifies this`bullets
      ensures bullets == Sweep(old(bullets))
    {
      var activeBullets: seq<GameObject> := [];
      for i := 0 to |bullets|
        invariant activeBullets == Sweep(bullets[..i])
      {
        assert bullets[..i + 1][..i] == bullets[..i];
        if bullets[i].active {
          activeBullets := activeBullets + [bullets[i]];
        }
      }
      assert bullets[..|bullets|] == bullets;
      bullets := activeBullets;
    }

    /** Whether no enemy is left alive. */
    method AllEnemiesDestroyed() returns (allEnemiesDestroyed: bool)
      ensures allEnemiesDestroyed == NoneActive(enemies)
    {
      allEnemiesDestroyed := true;
      for i := 0 to |enemies|
        invariant allEnemiesDestroyed
        invariant forall j :: 0 <= j < i ==> !enemies[j].active
      {
        if enemies[i].active {
          allEnemiesDestroyed := false;
          break;
        }
      }
    }

    method NextLevel()
      modifies this
      ensures State() == GameModel.NextLevel(old(State()))
    {
      level := level + 1;
      score := score + LevelBonus;
      player := player.(position := PlayerSpawn);

      var enemyCount := FirstLevelEnemies + level;
      enemies := [];
      var i := 0;
      while i < enemyCount
        invariant 0 <= i <= (if enemyCount < 0 then 0 else enemyCount)
        invariant enemies == Formation(i)
        invariant (level, score, player, status) == (old(level) + 1, old(score) + LevelBonus, old(player).(position := PlayerSpawn), old(status))
      {
        var row, col := i / RowLength, i % RowLength;
        enemies := enemies + [GameObject(EnemyId(i + 1),
                                         Position(FormationOrigin.x + col * ColumnSpacing,
                                                  FormationOrigin.y + row * RowSpacing),
                                         true)];
        assert enemies == Formation(i + 1);
        i := i + 1;
      }
      assert enemies == Formation(enemyCount);

      bullets := [];
    }
  }
}
