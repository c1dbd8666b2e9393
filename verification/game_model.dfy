/** Value-level model of the Space-Invaders simulation of the game service
    (services/game-service/internal/domain/game.go): its entities, every
    operation of a Game as a pure function on a snapshot of the game, the
    per-tick update as an ordered pipeline of stages, and the properties the
    simulation keeps. The class in game.dfy runs the same steps in place and is
    proved equal to these functions. */
module GameModel {

  datatype Option<T> = None | Some(value: T)

  /** The sentinel errors of the domain package. */
  datatype Error = GameNotFound | GameOver | InvalidMove

  datatype Result<T> = Ok(value: T) | Err(error: Error)

  datatype Status = Active | Won | Lost

  datatype Position = Position(x: int, y: int)

  datatype GameObject = GameObject(id: string, position: Position, active: bool)

  /** A snapshot of one Game (its creation time is not modelled). */
  datatype GameState = GameState(
    id: string,
    score: int,
    level: int,
    player: GameObject,
    enemies: seq<GameObject>,
    bullets: seq<GameObject>,
    status: Status)

  const PlayerSpawn := Position(385, 550)
  const MoveStep := 20
  const LeftLimit := 0
  const RightLimit := 780
  const MuzzleOffset := 10
  const BulletSpeed := 15
  const EnemySpeed := 1
  const DefenseLine := 550
  const HitRange := 30
  const KillPoints := 10
  const LevelBonus := 50
  const FirstLevelEnemies := 9
  const RowLength := 5
  const ColumnSpacing := 100
  const RowSpacing := 50
  const FormationOrigin := Position(100, 50)

  // ---------------------------------------------------------------------
  // Identifiers
  // ---------------------------------------------------------------------

  function Digit(d: nat): char
    requires d < 10
  {
    ('0' as int + d) as char
  }

  /** The number a string of decimal digits spells, most significant digit first. */
  function DigitsValue(s: string): nat
    requires forall i :: 0 <= i < |s| ==> '0' <= s[i] <= '9'
    decreases |s|
  {
    if s == [] then 0 else DigitsValue(s[..|s| - 1]) * 10 + (s[|s| - 1] as int - '0' as int)
  }

  /** `n` written in decimal, as the `%d` verb prints it. */
  function Decimal(n: nat): (s: string)
    ensures 1 <= |s|
    ensures forall i :: 0 <= i < |s| ==> '0' <= s[i] <= '9'
    decreases n
  {
    if n < 10 then [Digit(n)] else Decimal(n / 10) + [Digit(n % 10)]
  }

  /** The digits Decimal writes spell `n`, with no leading zero. */
  lemma {:induction false} DecimalSpells(n: nat)
    ensures DigitsValue(Decimal(n)) == n
    ensures Decimal(n)[0] == '0' <==> n == 0
    decreases n
  {
    if n >= 10 {
      var prefix := Decimal(n / 10);
      DecimalSpells(n / 10);
      assert Decimal(n) == prefix + [Digit(n % 10)];
      assert (prefix + [Digit(n % 10)])[..|prefix|] == prefix;
    }
  }

  /** Different numbers are written differently. */
  lemma DecimalInjective(a: nat, b: nat)
    requires Decimal(a) == Decimal(b)
    ensures a == b
  {
    DecimalSpells(a);
    DecimalSpells(b);
  }

  /** The identifier the level generator gives its `n`-th enemy: "enemy"
      followed by `n` in decimal. */
  function EnemyId(n: nat): (s: string)
    ensures |s| > 5 && s[..5] == "enemy"
  {
    var s := "enemy" + Decimal(n);
    assert s[5..] == Decimal(n);
    s
  }

  /** After its "enemy" prefix, an enemy id spells its number, with no
      leading zero. */
  lemma EnemyIdSpells(n: nat)
    ensures forall i :: 5 <= i < |EnemyId(n)| ==> '0' <= EnemyId(n)[i] <= '9'
    ensures DigitsValue(EnemyId(n)[5..]) == n
    ensures EnemyId(n)[5] == '0' <==> n == 0
  {
    assert EnemyId(n)[5..] == Decimal(n);
    DecimalSpells(n);
  }

  /** Different enemy numbers give different identifiers. */
  lemma EnemyIdInjective(a: nat, b: nat)
    ensures EnemyId(a) == EnemyId(b) ==> a == b
  {
    if EnemyId(a) == EnemyId(b) {
      assert Decimal(a) == EnemyId(a)[5..] == EnemyId(b)[5..] == Decimal(b);
      DecimalInjective(a, b);
    }
  }

  // ---------------------------------------------------------------------
  // Construction and the reachable-state invariant
  // ---------------------------------------------------------------------

  function Enemy(n: nat, x: int, y: int): GameObject
  {
    GameObject(EnemyId(n), Position(x, y), true)
  }

  /** A fresh game: the player at its spawn point, nine enemies (five at
      y = 50, four staggered at y = 100), no bullets, level 1, score 0. */
  function NewGame(id: string): (g: GameState)
    ensures Inv(g)
    ensures g.id == id
  {
    GameState(
      id, 0, 1,
      GameObject("player", PlayerSpawn, true),
      [ Enemy(1, 100, 50), Enemy(2, 200, 50), Enemy(3, 300, 50), Enemy(4, 400, 50), Enemy(5, 500, 50),
        Enemy(6, 150, 100), Enemy(7, 250, 100), Enemy(8, 350, 100), Enemy(9, 450, 100) ],
      [],
      Active)
  }

  /** What holds of every game reachable from NewGame through the game's
      operations: score and level stay in range, Won never occurs, the player
      stays on the spawn row at an x congruent to the spawn x modulo the step
      and strictly between -20 and 800, the enemy count follows the level, and
      every stored bullet is live and has not left the top of the field. */
  predicate Inv(g: GameState)
  {
    && g.score >= 0
    && g.level >= 1
    && g.status != Won
    && g.player == GameObject("player", Position(g.player.position.x, PlayerSpawn.y), true)
    && g.player.position.x % MoveStep == PlayerSpawn.x % MoveStep
    && LeftLimit - MoveStep < g.player.position.x < RightLimit + MoveStep
    && |g.enemies| == (if g.level == 1 then FirstLevelEnemies else FirstLevelEnemies + g.level)
    && forall i :: 0 <= i < |g.bullets| ==> g.bullets[i].active && g.bullets[i].position.y >= 0
  }

  lemma NewGameLayout(id: string)
    ensures var g := NewGame(id);
      && g.id == id && g.score == 0 && g.level == 1 && g.status == Active
      && g.bullets == []
      && g.player == GameObject("player", PlayerSpawn, true)
      && |g.enemies| == FirstLevelEnemies
      && CountActive(g.enemies) == FirstLevelEnemies
      && forall i :: 0 <= i < FirstLevelEnemies ==>
           g.enemies[i] == GameObject(EnemyId(i + 1),
                                      Position(100 + 100 * (i % 5) + 50 * (i / 5), 50 + 50 * (i / 5)),
                                      true)
  {
    var g := NewGame(id);
    CountAllActive(g.enemies);
  }

  /** The first level's layout is not the one the level generator produces
      for nine enemies: the second row is shifted right by half a column. */
  lemma FirstLevelIsNotAFormation(id: string)
    ensures NewGame(id).enemies != Formation(FirstLevelEnemies)
  {
    assert NewGame(id).enemies[5].position.x == 150;
    assert Formation(FirstLevelEnemies)[5].position.x == 100;
  }

  // ---------------------------------------------------------------------
  // MovePlayer and Shoot
  // ---------------------------------------------------------------------

  function WithPlayerX(g: GameState, x: int): GameState
  {
    g.(player := g.player.(position := g.player.position.(x := x)))
  }

  /** One step left or right. The edge test looks at the position before the
      step, so the player can end up to one step beyond [0, 780]. */
  function MovePlayer(g: GameState, direction: string): (r: Result<GameState>)
    ensures r.Ok? <==> g.status == Active && (direction == "left" || direction == "right")
    ensures r.Err? ==> r.error == (if g.status != Active then GameOver else InvalidMove)
    ensures r.Ok? ==> r.value == WithPlayerX(g, r.value.player.position.x)
    ensures r.Ok? ==>
      var x, x' := g.player.position.x, r.value.player.position.x;
      && (x' == x - MoveStep <==> direction == "left" && x > LeftLimit)
      && (x' == x + MoveStep <==> direction == "right" && x < RightLimit)
      && (x' == x || x' == x - MoveStep || x' == x + MoveStep)
  {
    if g.status != Active then Err(GameOver)
    else if direction == "left" then
      Ok(if g.player.position.x > LeftLimit then WithPlayerX(g, g.player.position.x - MoveStep) else g)
    else if direction == "right" then
      Ok(if g.player.position.x < RightLimit then WithPlayerX(g, g.player.position.x + MoveStep) else g)
    else Err(InvalidMove)
  }

  lemma MovePlayerKeepsRange(g: GameState, direction: string)
    requires LeftLimit - MoveStep < g.player.position.x < RightLimit + MoveStep
    ensures MovePlayer(g, direction).Ok? ==>
      LeftLimit - MoveStep < MovePlayer(g, direction).value.player.position.x < RightLimit + MoveStep
  {
  }

  lemma MovePlayerKeepsInv(g: GameState, direction: string)
    requires Inv(g)
    ensures MovePlayer(g, direction).Ok? ==> Inv(MovePlayer(g, direction).value)
  {
  }

  /** Presses the same direction `n` times; a refused press leaves the game as it is. */
  function MoveRepeatedly(g: GameState, direction: string, n: nat): GameState
    decreases n
  {
    if n == 0 then g
    else
      var next := match MovePlayer(g, direction) case Ok(moved) => moved case Err(_) => g;
      MoveRepeatedly(next, direction, n - 1)
  }

  lemma {:induction false} WalkLeft(g: GameState, k: nat)
    requires g.status == Active && g.player.position.x == 5 + MoveStep * k
    ensures MoveRepeatedly(g, "left", k + 1).player.position.x == -15
    decreases k
  {
    var next := WithPlayerX(g, g.player.position.x - MoveStep);
    assert MovePlayer(g, "left") == Ok(next);
    if k > 0 {
      WalkLeft(next, k - 1);
    }
  }

  lemma {:induction false} WalkRight(g: GameState, k: nat)
    requires g.status == Active && g.player.position.x == 765 - MoveStep * k
    ensures MoveRepeatedly(g, "right", k + 1).player.position.x == 785
    decreases k
  {
    var next := WithPlayerX(g, g.player.position.x + MoveStep);
    assert MovePlayer(g, "right") == Ok(next);
    if k > 0 {
      WalkRight(next, k - 1);
    }
  }

  /** From the spawn point, twenty presses reach x = -15 on the left and
      x = 785 on the right: the movement guard does not clamp to [0, 780]. */
  lemma SpawnWalksPastTheEdges(id: string)
    ensures MoveRepeatedly(NewGame(id), "left", 20).player.position.x == -15
    ensures MoveRepeatedly(NewGame(id), "right", 20).player.position.x == 785
  {
    var g := NewGame(id);
    assert g.status == Active && g.player.position.x == PlayerSpawn.x;
    WalkLeft(g, 19);
    WalkRight(g, 19);
  }

  function Shoot(g: GameState): (r: Result<GameState>)
    ensures r.Err? <==> g.status != Active
    ensures r.Err? ==> r.error == GameOver
    ensures r.Ok? ==>
      && r.value.(bullets := g.bullets) == g
      && |r.value.bullets| == |g.bullets| + 1
      && r.value.bullets[..|g.bullets|] == g.bullets
      && r.value.bullets[|g.bullets|]
         == GameObject("bullet", Position(g.player.position.x, g.player.position.y - MuzzleOffset), true)
  {
    if g.status != Active then Err(GameOver)
    else
      var bullet := GameObject("bullet", Position(g.player.position.x, g.player.position.y - MuzzleOffset), true);
      Ok(g.(bullets := g.bullets + [bullet]))
  }

  lemma ShootKeepsInv(g: GameState)
    requires Inv(g)
    ensures Shoot(g).Ok? ==> Inv(Shoot(g).value)
  {
  }

  // ---------------------------------------------------------------------
  // Counting live objects
  // ---------------------------------------------------------------------

  function CountActive(s: seq<GameObject>): (n: nat)
    ensures n <= |s|
    decreases |s|
  {
    if s == [] then 0 else CountActive(s[..|s| - 1]) + (if s[|s| - 1].active then 1 else 0)
  }

  predicate NoneActive(s: seq<GameObject>)
  {
    forall i :: 0 <= i < |s| ==> !s[i].active
  }

  lemma {:induction false} CountAllActive(s: seq<GameObject>)
    requires forall i :: 0 <= i < |s| ==> s[i].active
    ensures CountActive(s) == |s|
    decreases |s|
  {
    if s != [] {
      CountAllActive(s[..|s| - 1]);
    }
  }

  lemma {:induction false} CountNoneActive(s: seq<GameObject>)
    ensures CountActive(s) == 0 <==> NoneActive(s)
    decreases |s|
  {
    if s != [] {
      var init := s[..|s| - 1];
      CountNoneActive(init);
      if NoneActive(s) {
        assert NoneActive(init) by {
          forall i | 0 <= i < |init| ensures !init[i].active { assert init[i] == s[i]; }
        }
      } else if CountActive(s) == 0 {
        assert NoneActive(init);
        assert !s[|s| - 1].active;
        forall i | 0 <= i < |s| ensures !s[i].active {
          if i < |s| - 1 { assert s[i] == init[i]; }
        }
        assert false;
      }
    }
  }

  lemma {:induction false} CountSameFlags(a: seq<GameObject>, b: seq<GameObject>)
    requires |a| == |b|
    requires forall i :: 0 <= i < |a| ==> a[i].active == b[i].active
    ensures CountActive(a) == CountActive(b)
    decreases |a|
  {
    if a != [] {
      CountSameFlags(a[..|a| - 1], b[..|b| - 1]);
    }
  }

  function Deactivated(o: GameObject): GameObject
  {
    o.(active := false)
  }

  lemma {:induction false} CountDeactivate(s: seq<GameObject>, k: nat)
    requires k < |s| && s[k].active
    ensures CountActive(s[k := Deactivated(s[k])]) == CountActive(s) - 1
    decreases |s|
  {
    var t := s[k := Deactivated(s[k])];
    var n := |s| - 1;
    if k == n {
      assert t[..n] == s[..n];
    } else {
      assert t[..n] == s[..n][k := Deactivated(s[k])];
      CountDeactivate(s[..n], k);
    }
  }

  /** Indices of the objects of `s` that satisfy `p`, in increasing order. */
  function Where(s: seq<GameObject>, p: GameObject -> bool): (idx: seq<nat>)
    ensures forall k :: 0 <= k < |idx| ==> idx[k] < |s| && p(s[idx[k]])
    ensures forall k, l :: 0 <= k < l < |idx| ==> idx[k] < idx[l]
    ensures forall j :: 0 <= j < |s| && p(s[j]) ==> j in idx
    decreases |s|
  {
    if s == [] then []
    else
      var n := |s| - 1;
      Where(s[..n], p) + (if p(s[n]) then [n] else [])
  }

  predicate IsLive(o: GameObject)
  {
    o.active
  }

  // ---------------------------------------------------------------------
  // The tick, stage 1: bullets move up, those past the top are dropped
  // ---------------------------------------------------------------------

  function Raised(b: GameObject): GameObject
  {
    b.(position := b.position.(y := b.position.y - BulletSpeed))
  }

  function AdvanceBullets(bs: seq<GameObject>): (r: seq<GameObject>)
    ensures |r| <= |bs|
    ensures forall i :: 0 <= i < |r| ==> r[i].active && r[i].position.y >= 0
    decreases |bs|
  {
    if bs == [] then []
    else
      var b := bs[|bs| - 1];
      var kept := AdvanceBullets(bs[..|bs| - 1]);
      if b.active && Raised(b).position.y >= 0 then kept + [Raised(b)] else kept
  }

  /** A bullet survives stage 1 exactly when it was live at y >= 15, and then
      it is that bullet moved up by 15. */
  lemma {:induction false} AdvanceBulletsMembers(bs: seq<GameObject>, b': GameObject)
    ensures b' in AdvanceBullets(bs) <==>
      exists i :: 0 <= i < |bs| && bs[i].active && bs[i].position.y >= BulletSpeed && b' == Raised(bs[i])
    decreases |bs|
  {
    if bs != [] {
      var n := |bs| - 1;
      var init := bs[..n];
      AdvanceBulletsMembers(init, b');
      if b' in AdvanceBullets(bs) {
        if b' in AdvanceBullets(init) {
          var i :| 0 <= i < |init| && init[i].active && init[i].position.y >= BulletSpeed && b' == Raised(init[i]);
          assert bs[i] == init[i];
        } else {
          assert bs[n].active && bs[n].position.y >= BulletSpeed && b' == Raised(bs[n]);
        }
      }
      if exists i :: 0 <= i < |bs| && bs[i].active && bs[i].position.y >= BulletSpeed && b' == Raised(bs[i]) {
        var i :| 0 <= i < |bs| && bs[i].active && bs[i].position.y >= BulletSpeed && b' == Raised(bs[i]);
        if i < n {
          assert init[i] == bs[i];
          assert b' in AdvanceBullets(init);
        }
      }
    }
  }

  /** A bullet that is live and high enough to stay on the field after one step. */
  predicate Survives(b: GameObject)
  {
    b.active && b.position.y >= BulletSpeed
  }

  /** Stage 1 keeps the surviving bullets in their original order, each moved
      up by one step: the k-th bullet kept is the k-th survivor, raised. */
  lemma {:induction false} AdvanceBulletsInOrder(bs: seq<GameObject>)
    ensures var idx, r := Where(bs, Survives), AdvanceBullets(bs);
      && |r| == |idx|
      && forall k :: 0 <= k < |idx| ==> r[k] == Raised(bs[idx[k]])
    decreases |bs|
  {
    if bs != [] {
      var n := |bs| - 1;
      var init := bs[..n];
      AdvanceBulletsInOrder(init);
      var idx0, kept := Where(init, Survives), AdvanceBullets(init);
      forall k | 0 <= k < |idx0| ensures init[idx0[k]] == bs[idx0[k]] {
      }
      if Survives(bs[n]) {
        assert Where(bs, Survives) == idx0 + [n];
        assert AdvanceBullets(bs) == kept + [Raised(bs[n])];
      } else {
        assert Where(bs, Survives) == idx0;
        assert AdvanceBullets(bs) == kept;
      }
    }
  }

  // ---------------------------------------------------------------------
  // Stage 2: enemies move down; the first one past the defence line ends it
  // ---------------------------------------------------------------------

  function Lowered(e: GameObject): GameObject
  {
    e.(position := e.position.(y := e.position.y + EnemySpeed))
  }

  /** A live enemy that one step down takes below the defence line. */
  predicate Crosses(e: GameObject)
  {
    e.active && Lowered(e).position.y > DefenseLine
  }

  /** Index of the first enemy that crosses, or |es| when none does. */
  function FirstCrossing(es: seq<GameObject>): (k: nat)
    ensures k <= |es|
    ensures k < |es| ==> Crosses(es[k])
    ensures forall j :: 0 <= j < k ==> !Crosses(es[j])
  {
    if es == [] then 0 else if Crosses(es[0]) then 0 else 1 + FirstCrossing(es[1..])
  }

  /** The enemy list after the descent loop has visited its first `n` slots. */
  function Descend(es: seq<GameObject>, n: int): (r: seq<GameObject>)
    ensures |r| == |es|
    ensures forall i :: 0 <= i < |es| ==>
      && r[i].id == es[i].id && r[i].active == es[i].active && r[i].position.x == es[i].position.x
      && r[i].position.y == es[i].position.y + (if i < n && es[i].active then EnemySpeed else 0)
  {
    seq(|es|, i requires 0 <= i < |es| => if i < n && es[i].active then Lowered(es[i]) else es[i])
  }

  // ---------------------------------------------------------------------
  // Stage 3: collisions, one kill per bullet
  // ---------------------------------------------------------------------

  function Abs(x: int): (r: int)
    ensures r >= 0 && (r == x || r == -x)
  {
    if x < 0 then -x else x
  }

  /** The fixed proximity test: closer than 30 on both axes. */
  function CheckCollision(a: GameObject, b: GameObject): (r: bool)
    ensures r <==>
      && -HitRange < a.position.x - b.position.x < HitRange
      && -HitRange < a.position.y - b.position.y < HitRange
  {
    Abs(a.position.x - b.position.x) < HitRange && Abs(a.position.y - b.position.y) < HitRange
  }

  /** Index of the first live enemy bullet `b` overlaps, or |es| when there is none. */
  function FirstHit(b: GameObject, es: seq<GameObject>): (k: nat)
    ensures k <= |es|
    ensures k < |es| ==> es[k].active && CheckCollision(b, es[k])
    ensures forall j :: 0 <= j < k ==> !(es[j].active && CheckCollision(b, es[j]))
  {
    if es == [] then 0
    else if es[0].active && CheckCollision(b, es[0]) then 0
    else 1 + FirstHit(b, es[1..])
  }

  /** What the collision stage works on: bullets, enemies and the score. */
  datatype Melee = Melee(bullets: seq<GameObject>, enemies: seq<GameObject>, score: int)

  /** Bullet `i`'s turn in the collision stage. */
  function ResolveBullet(m: Melee, i: nat): (r: Melee)
    requires i < |m.bullets|
    ensures |r.bullets| == |m.bullets| && |r.enemies| == |m.enemies|
    ensures r.score == m.score || r.score == m.score + KillPoints
  {
    var k := FirstHit(m.bullets[i], m.enemies);
    if k < |m.enemies| then
      Melee(m.bullets[i := Deactivated(m.bullets[i])], m.enemies[k := Deactivated(m.enemies[k])], m.score + KillPoints)
    else m
  }

  /** Bullet `b` can take enemy `e`: `e` is live and within range. */
  predicate Hits(b: GameObject, e: GameObject)
  {
    e.active && CheckCollision(b, e)
  }

  /** Enemy `j` is the first in `es` that bullet `b` can take. */
  predicate TakenBy(b: GameObject, es: seq<GameObject>, j: nat)
    requires j < |es|
  {
    Hits(b, es[j]) && forall jj :: 0 <= jj < j ==> !Hits(b, es[jj])
  }

  /** A bullet's turn switches off exactly the first live enemy it overlaps,
      and nothing else; when it overlaps one, the bullet is switched off too
      and 10 points are scored, otherwise nothing changes. */
  lemma ResolveBulletTakesFirstHit(p: Melee, i: nat)
    requires i < |p.bullets|
    ensures var r, b := ResolveBullet(p, i), p.bullets[i];
      var hit := exists j :: 0 <= j < |p.enemies| && Hits(b, p.enemies[j]);
      && (forall j :: 0 <= j < |p.enemies| ==>
            r.enemies[j] == if TakenBy(b, p.enemies, j) then Deactivated(p.enemies[j]) else p.enemies[j])
      && r.bullets == (if hit then p.bullets[i := Deactivated(b)] else p.bullets)
      && r.score == (if hit then p.score + KillPoints else p.score)
  {
    var r, b := ResolveBullet(p, i), p.bullets[i];
    var k := FirstHit(b, p.enemies);
    if k < |p.enemies| {
      assert Hits(b, p.enemies[k]);
      forall j | 0 <= j < |p.enemies|
        ensures r.enemies[j] == if TakenBy(b, p.enemies, j) then Deactivated(p.enemies[j]) else p.enemies[j]
      {
        if j > k {
          assert !TakenBy(b, p.enemies, j);
        }
      }
    } else {
      forall j | 0 <= j < |p.enemies| ensures !Hits(b, p.enemies[j]) {
      }
    }
  }

  /** The collision stage after its first `n` bullets: objects are only ever
      switched off, never moved, and bullets not yet visited are untouched. */
  function Resolve(m: Melee, n: nat): (r: Melee)
    requires n <= |m.bullets|
    ensures |r.bullets| == |m.bullets| && |r.enemies| == |m.enemies|
    ensures r.score >= m.score
    decreases n
  {
    if n == 0 then m else ResolveBullet(Resolve(m, n - 1), n - 1)
  }

  /** The collision stage never moves anything: each object either stays as
      it was or is switched off, and bullets not yet visited are untouched. */
  lemma {:induction false} ResolveOnlySwitchesOff(m: Melee, n: nat)
    requires n <= |m.bullets|
    ensures var r := Resolve(m, n);
      && (forall i :: 0 <= i < |r.bullets| ==> r.bullets[i] == m.bullets[i] || r.bullets[i] == Deactivated(m.bullets[i]))
      && (forall j :: 0 <= j < |r.enemies| ==> r.enemies[j] == m.enemies[j] || r.enemies[j] == Deactivated(m.enemies[j]))
      && (forall i :: n <= i < |r.bullets| ==> r.bullets[i] == m.bullets[i])
    decreases n
  {
    if n > 0 {
      ResolveOnlySwitchesOff(m, n - 1);
      var p := Resolve(m, n - 1);
      assert Resolve(m, n) == ResolveBullet(p, n - 1);
    }
  }

  /** One bullet's turn: it either misses, or it and one live enemy are
      switched off and the score rises by 10. */
  lemma ResolveBulletAccounting(p: Melee, i: nat)
    requires i < |p.bullets| && p.bullets[i].active
    ensures var r := ResolveBullet(p, i);
      var hit := CountActive(p.bullets) - CountActive(r.bullets);
      && (hit == 0 || hit == 1)
      && r.score == p.score + KillPoints * hit
      && CountActive(r.enemies) == CountActive(p.enemies) - hit
  {
    var k := FirstHit(p.bullets[i], p.enemies);
    if k < |p.enemies| {
      CountDeactivate(p.bullets, i);
      CountDeactivate(p.enemies, k);
    }
  }

  /** Every bullet that hit took exactly one live enemy with it and scored 10. */
  lemma {:induction false} ResolveAccounting(m: Melee, n: nat)
    requires n <= |m.bullets|
    requires forall i :: 0 <= i < |m.bullets| ==> m.bullets[i].active
    ensures var r := Resolve(m, n);
      var kills := CountActive(m.bullets) - CountActive(r.bullets);
      && r.score == m.score + KillPoints * kills
      && CountActive(r.enemies) == CountActive(m.enemies) - kills
    decreases n
  {
    if n > 0 {
      ResolveAccounting(m, n - 1);
      ResolveOnlySwitchesOff(m, n - 1);
      var p := Resolve(m, n - 1);
      assert p.bullets[n - 1] == m.bullets[n - 1];
      ResolveBulletAccounting(p, n - 1);
    }
  }

  /** None of the first `n` bullets that is still live overlaps a live enemy. */
  predicate Disarmed(m: Melee, n: nat)
    requires n <= |m.bullets|
  {
    forall i, j :: 0 <= i < n && 0 <= j < |m.enemies| && m.bullets[i].active && m.enemies[j].active ==>
      !CheckCollision(m.bullets[i], m.enemies[j])
  }

  /** One bullet's turn keeps the earlier bullets disarmed and disarms this one. */
  lemma ResolveBulletDisarms(p: Melee, n: nat)
    requires n < |p.bullets| && Disarmed(p, n)
    ensures Disarmed(ResolveBullet(p, n), n + 1)
  {
    var r := ResolveBullet(p, n);
    var k := FirstHit(p.bullets[n], p.enemies);
    forall i, j | 0 <= i < n + 1 && 0 <= j < |r.enemies| && r.bullets[i].active && r.enemies[j].active
      ensures !CheckCollision(r.bullets[i], r.enemies[j])
    {
      if k < |p.enemies| {
        assert r.enemies[j] == p.enemies[j];
        assert r.bullets[i] == p.bullets[i];
      } else if i == n {
        assert !(p.enemies[j].active && CheckCollision(p.bullets[n], p.enemies[j]));
      }
    }
  }

  /** After the first `n` bullets, none of them that is still live overlaps a
      live enemy. */
  lemma {:induction false} ResolveNoOverlap(m: Melee, n: nat)
    requires n <= |m.bullets|
    ensures Disarmed(Resolve(m, n), n)
    decreases n
  {
    if n > 0 {
      ResolveNoOverlap(m, n - 1);
      ResolveBulletDisarms(Resolve(m, n - 1), n - 1);
    }
  }

  // ---------------------------------------------------------------------
  // Stage 3a: sweep out dead bullets
  // ---------------------------------------------------------------------

  function Sweep(bs: seq<GameObject>): (r: seq<GameObject>)
    ensures |r| <= |bs|
    ensures forall i :: 0 <= i < |r| ==> r[i].active && r[i] in bs
    decreases |bs|
  {
    if bs == [] then []
    else
      var kept := Sweep(bs[..|bs| - 1]);
      if bs[|bs| - 1].active then kept + [bs[|bs| - 1]] else kept
  }

  /** The sweep keeps the live bullets in their original order: the k-th bullet
      kept is the k-th live one. */
  lemma {:induction false} SweepInOrder(bs: seq<GameObject>)
    ensures var idx, r := Where(bs, IsLive), Sweep(bs);
      && |r| == |idx|
      && forall k :: 0 <= k < |idx| ==> r[k] == bs[idx[k]]
    decreases |bs|
  {
    if bs != [] {
      var n := |bs| - 1;
      var init := bs[..n];
      SweepInOrder(init);
      var idx0 := Where(init, IsLive);
      assert Where(bs, IsLive) == idx0 + (if IsLive(bs[n]) then [n] else []);
      forall k | 0 <= k < |idx0| ensures init[idx0[k]] == bs[idx0[k]] {
      }
    }
  }

  lemma {:induction false} SweepCount(bs: seq<GameObject>)
    ensures |Sweep(bs)| == CountActive(bs)
    decreases |bs|
  {
    if bs != [] {
      SweepCount(bs[..|bs| - 1]);
    }
  }

  // ---------------------------------------------------------------------
  // Stage 4: the next level
  // ---------------------------------------------------------------------

  /** The enemy the level generator puts in slot `i`: five to a row, 100
      apart, rows 50 apart, starting at (100, 50). */
  function FormationSlot(i: nat): GameObject
  {
    GameObject(EnemyId(i + 1),
               Position(FormationOrigin.x + (i % RowLength) * ColumnSpacing,
                        FormationOrigin.y + (i / RowLength) * RowSpacing),
               true)
  }

  /** The first `count` slots (none when `count` is not positive). */
  function Formation(count: int): (es: seq<GameObject>)
    ensures |es| == if count < 0 then 0 else count
  {
    seq(if count < 0 then 0 else count, i requires 0 <= i => FormationSlot(i))
  }

  /** Enemies of a generated level have pairwise distinct identifiers. */
  lemma FormationIdsDistinct(count: int)
    ensures forall i, j :: 0 <= i < j < |Formation(count)| ==> Formation(count)[i].id != Formation(count)[j].id
  {
    forall i, j | 0 <= i < j < |Formation(count)|
      ensures Formation(count)[i].id != Formation(count)[j].id
    {
      EnemyIdInjective(i + 1, j + 1);
    }
  }

  /** The next level: one level up with a 50-point bonus, the player back at
      the spawn point, no bullets, and a fresh set of live enemies. */
  function NextLevel(g: GameState): (r: GameState)
    ensures r.id == g.id && r.status == g.status
    ensures r.level == g.level + 1 && r.score == g.score + LevelBonus
    ensures r.player.id == g.player.id && r.player.active == g.player.active && r.player.position == PlayerSpawn
    ensures r.bullets == []
    ensures forall i :: 0 <= i < |r.enemies| ==> r.enemies[i].active
  {
    var level := g.level + 1;
    g.(level := level,
       score := g.score + LevelBonus,
       player := g.player.(position := PlayerSpawn),
       enemies := Formation(FirstLevelEnemies + level),
       bullets := [])
  }

  lemma NextLevelLayout(g: GameState)
    requires g.level >= 1
    ensures var r := NextLevel(g);
      && r.level == g.level + 1
      && r.score == g.score + LevelBonus
      && r.player == g.player.(position := PlayerSpawn)
      && r.bullets == []
      && |r.enemies| == FirstLevelEnemies + r.level
      && CountActive(r.enemies) == |r.enemies|
      && (forall i :: 0 <= i < |r.enemies| ==>
            r.enemies[i].active && r.enemies[i].position == Position(100 + 100 * (i % 5), 50 + 50 * (i / 5)))
      && (forall i, j :: 0 <= i < j < |r.enemies| ==> r.enemies[i].id != r.enemies[j].id)
      && (r.id, r.status) == (g.id, g.status)
  {
    var r := NextLevel(g);
    CountAllActive(r.enemies);
    FormationIdsDistinct(FirstLevelEnemies + r.level);
  }

  // ---------------------------------------------------------------------
  // The tick
  // ---------------------------------------------------------------------

  /** One tick: nothing on a finished game; otherwise bullets up, enemies
      down (stopping at the first crossing, which loses the game), collisions,
      sweep, and a new level once no enemy is left. */
  function Update(g: GameState): (r: GameState)
    ensures r.id == g.id && r.score >= g.score && r.level >= g.level
    ensures g.status != Active ==> r == g
    ensures r.status != g.status ==> g.status == Active && r.status == Lost
  {
    if g.status != Active then g
    else
      var bullets := AdvanceBullets(g.bullets);
      var k := FirstCrossing(g.enemies);
      if k < |g.enemies| then
        g.(bullets := bullets, enemies := Descend(g.enemies, k + 1), status := Lost)
      else
        var m := Resolve(Melee(bullets, Descend(g.enemies, |g.enemies|), g.score), |bullets|);
        var next := g.(bullets := Sweep(m.bullets), enemies := m.enemies, score := m.score);
        if NoneActive(m.enemies) then NextLevel(next) else next
  }

  /** A finished game is frozen: the tick does nothing and both player
      actions are refused with GameOver. */
  lemma FinishedGameIsFrozen(g: GameState, direction: string)
    requires g.status != Active
    ensures Update(g) == g && Update(Update(g)) == Update(g)
    ensures MovePlayer(g, direction) == Err(GameOver)
    ensures Shoot(g) == Err(GameOver)
  {
  }

  /** A tick loses the game exactly when some live enemy is one step from
      crossing the defence line. */
  lemma UpdateLosesIff(g: GameState)
    requires g.status == Active
    ensures Update(g).status == Lost <==> exists i :: 0 <= i < |g.enemies| && Crosses(g.enemies[i])
  {
    var k := FirstCrossing(g.enemies);
    if exists i :: 0 <= i < |g.enemies| && Crosses(g.enemies[i]) {
      var i :| 0 <= i < |g.enemies| && Crosses(g.enemies[i]);
      assert k <= i;
    }
  }

  /** A tick starts the next level exactly when it does not lose the game and
      no enemy is left live after the collision stage. */
  lemma UpdateLevelsUpIff(g: GameState)
    requires g.status == Active
    ensures Update(g).level != g.level <==>
      FirstCrossing(g.enemies) == |g.enemies| && NoneActive(Collide(g).enemies)
  {
    if FirstCrossing(g.enemies) == |g.enemies| {
      var m := Collide(g);
      var next := g.(bullets := Sweep(m.bullets), enemies := m.enemies, score := m.score);
      assert Update(g) == if NoneActive(m.enemies) then NextLevel(next) else next;
    }
  }

  /** A losing tick: bullets have moved, enemies up to and including the
      first crossing one have moved down, the rest have not, and score,
      level, player and every enemy's live flag are untouched. */
  lemma UpdateOnLoss(g: GameState)
    requires g.status == Active && Update(g).status == Lost
    ensures var r, k := Update(g), FirstCrossing(g.enemies);
      && k < |g.enemies|
      && r.score == g.score && r.level == g.level && r.player == g.player
      && r.bullets == AdvanceBullets(g.bullets)
      && |r.enemies| == |g.enemies|
      && (forall i :: 0 <= i < |g.enemies| ==> r.enemies[i].active == g.enemies[i].active)
      && (forall i :: 0 <= i <= k && g.enemies[i].active ==> r.enemies[i] == Lowered(g.enemies[i]))
      && (forall i :: k < i < |g.enemies| || (0 <= i < |g.enemies| && !g.enemies[i].active) ==> r.enemies[i] == g.enemies[i])
  {
  }

  /** The collision stage of a tick that does not lose the game. */
  function Collide(g: GameState): (m: Melee)
    requires g.status == Active && FirstCrossing(g.enemies) == |g.enemies|
  {
    var bullets := AdvanceBullets(g.bullets);
    Resolve(Melee(bullets, Descend(g.enemies, |g.enemies|), g.score), |bullets|)
  }

  lemma CollideAccounting(g: GameState)
    requires g.status == Active && FirstCrossing(g.enemies) == |g.enemies|
    ensures var adv, m := AdvanceBullets(g.bullets), Collide(g);
      var kills := |adv| - |Sweep(m.bullets)|;
      && 0 <= kills <= |adv|
      && m.score == g.score + KillPoints * kills
      && CountActive(m.enemies) == CountActive(g.enemies) - kills
  {
    var adv, m := AdvanceBullets(g.bullets), Collide(g);
    var es := Descend(g.enemies, |g.enemies|);
    ResolveAccounting(Melee(adv, es, g.score), |adv|);
    CountAllActive(adv);
    CountSameFlags(es, g.enemies);
    SweepCount(m.bullets);
  }

  /** A tick that neither loses nor clears the level: every live enemy moved
      down one step, every bullet that disappeared (other than by leaving the
      top) destroyed exactly one enemy, and the score rose by 10 for each. */
  lemma UpdateScoring(g: GameState)
    requires g.status == Active && Update(g).status == Active && Update(g).level == g.level
    ensures var r, adv := Update(g), AdvanceBullets(g.bullets);
      var kills := |adv| - |r.bullets|;
      && 0 <= kills <= |adv|
      && r.score == g.score + KillPoints * kills
      && CountActive(r.enemies) == CountActive(g.enemies) - kills
      && r.player == g.player
      && |r.enemies| == |g.enemies|
      && forall i :: 0 <= i < |g.enemies| ==>
           && r.enemies[i].id == g.enemies[i].id
           && r.enemies[i].position == (if g.enemies[i].active then Lowered(g.enemies[i]) else g.enemies[i]).position
  {
    CollideAccounting(g);
    var adv := AdvanceBullets(g.bullets);
    ResolveOnlySwitchesOff(Melee(adv, Descend(g.enemies, |g.enemies|), g.score), |adv|);
  }

  /** A tick that clears the level: every enemy live at the start of the tick
      was destroyed by a bullet (10 each), then the level rose by one with a
      50-point bonus, the player went back to the spawn point, the bullets were
      cleared and 9 + level fresh enemies were laid out. */
  lemma UpdateLevelUp(g: GameState)
    requires g.status == Active && Update(g).level != g.level
    ensures var r := Update(g);
      && r.status == Active
      && r.level == g.level + 1
      && r.score == g.score + KillPoints * CountActive(g.enemies) + LevelBonus
      && r.player == g.player.(position := PlayerSpawn)
      && r.bullets == []
      && r.enemies == Formation(FirstLevelEnemies + r.level)
  {
    CollideAccounting(g);
    CountNoneActive(Collide(g).enemies);
  }

  /** After a tick that keeps the game going, no remaining bullet overlaps a
      live enemy. */
  lemma UpdateLeavesNoOverlap(g: GameState)
    requires g.status == Active && Update(g).status == Active
    ensures var r := Update(g);
      forall i, j :: 0 <= i < |r.bullets| && 0 <= j < |r.enemies| && r.enemies[j].active ==>
        !CheckCollision(r.bullets[i], r.enemies[j])
  {
    var r := Update(g);
    var adv := AdvanceBullets(g.bullets);
    var m0 := Melee(adv, Descend(g.enemies, |g.enemies|), g.score);
    var m := Collide(g);
    assert m == Resolve(m0, |adv|);
    ResolveNoOverlap(m0, |adv|);
    if !NoneActive(m.enemies) {
      assert r.bullets == Sweep(m.bullets) && r.enemies == m.enemies;
      forall i, j | 0 <= i < |r.bullets| && 0 <= j < |r.enemies| && r.enemies[j].active
        ensures !CheckCollision(r.bullets[i], r.enemies[j])
      {
        var b := r.bullets[i];
        assert b.active && b in m.bullets;
        var t :| 0 <= t < |m.bullets| && m.bullets[t] == b;
      }
    }
  }

  lemma UpdateKeepsInv(g: GameState)
    requires Inv(g)
    ensures Inv(Update(g))
  {
    if g.status == Active && FirstCrossing(g.enemies) == |g.enemies| {
      var adv := AdvanceBullets(g.bullets);
      var m := Collide(g);
      ResolveOnlySwitchesOff(Melee(adv, Descend(g.enemies, |g.enemies|), g.score), |adv|);
      var swept := Sweep(m.bullets);
      forall i | 0 <= i < |swept| ensures swept[i].position.y >= 0 {
        var t :| 0 <= t < |m.bullets| && m.bullets[t] == swept[i];
        assert m.bullets[t].position == adv[t].position;
      }
    }
  }
}
