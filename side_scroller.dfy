/** games/side_scroller/game.js: the rules of the canvas side-scroller, apart
    from drawing, sound, DOM wiring, frame scheduling and the gravity and
    timing arithmetic. The pure parts (HTML escaping, the two overlap tests,
    the difficulty table, the state toggles, the jump, landing and orb-buffer
    steps) are functions; `Game` holds the mutable state the script keeps in
    `state`, `player`, `orbs`, `score` and `high`, and its methods update it
    as the script does. */
module SideScroller {

  // ------------------------------------------------------------ escapeHtml

  /** The five characters escapeHtml replaces. */
  predicate IsSpecial(c: char) {
    c == '&' || c == '<' || c == '>' || c == '"' || c == '\''
  }

  /** The characters that may not appear in escaped output at all. */
  predicate IsMarkup(c: char) {
    c == '<' || c == '>' || c == '"' || c == '\''
  }

  /** The replacement table of escapeHtml. */
  function EscapeChar(c: char): string {
    if c == '&' then "&amp;"
    else if c == '<' then "&lt;"
    else if c == '>' then "&gt;"
    else if c == '"' then "&quot;"
    else if c == '\'' then "&#39;"
    else [c]
  }

  /** escapeHtml(s): every special character replaced by its entity. */
  function EscapeHtml(s: string): (r: string)
    ensures |r| >= |s|
  {
    if s == [] then [] else EscapeChar(s[0]) + EscapeHtml(s[1..])
  }

  /** `e` occurs in `r` at position `i`. */
  predicate OccursAt(r: string, i: nat, e: string) {
    i + |e| <= |r| && r[i..i + |e|] == e
  }

  /** One of the five entities escapeHtml writes starts at position `i`. */
  predicate EntityAt(r: string, i: nat) {
    OccursAt(r, i, "&amp;") || OccursAt(r, i, "&lt;") || OccursAt(r, i, "&gt;")
    || OccursAt(r, i, "&quot;") || OccursAt(r, i, "&#39;")
  }

  /** Safe to place between tags: no markup character, and every `&` opens
      one of the five entities. */
  predicate IsEscaped(r: string) {
    forall i :: 0 <= i < |r| ==> !IsMarkup(r[i]) && (r[i] == '&' ==> EntityAt(r, i))
  }

  /** Decodes the five entities, leaving everything else alone. */
  function UnescapeHtml(s: string): string
    decreases |s|
  {
    if s == [] then []
    else if OccursAt(s, 0, "&amp;") then "&" + UnescapeHtml(s[5..])
    else if OccursAt(s, 0, "&lt;") then "<" + UnescapeHtml(s[4..])
    else if OccursAt(s, 0, "&gt;") then ">" + UnescapeHtml(s[4..])
    else if OccursAt(s, 0, "&quot;") then "\"" + UnescapeHtml(s[6..])
    else if OccursAt(s, 0, "&#39;") then "'" + UnescapeHtml(s[5..])
    else [s[0]] + UnescapeHtml(s[1..])
  }

  lemma OccursAtAppend(a: string, b: string, i: nat, e: string)
    ensures OccursAt(a, i, e) ==> OccursAt(a + b, i, e)
    ensures OccursAt(b, i, e) ==> OccursAt(a + b, |a| + i, e)
  {
    if OccursAt(a, i, e) {
      assert (a + b)[i..i + |e|] == a[i..i + |e|];
    }
    if OccursAt(b, i, e) {
      assert (a + b)[|a| + i..|a| + i + |e|] == b[i..i + |e|];
    }
  }

  lemma {:induction false} EscapedAppend(a: string, b: string)
    requires IsEscaped(a) && IsEscaped(b)
    ensures IsEscaped(a + b)
  {
    forall i | 0 <= i < |a + b| && (a + b)[i] == '&' ensures EntityAt(a + b, i) {
      if i < |a| {
        OccursAtAppend(a, b, i, "&amp;");
        OccursAtAppend(a, b, i, "&lt;");
        OccursAtAppend(a, b, i, "&gt;");
        OccursAtAppend(a, b, i, "&quot;");
        OccursAtAppend(a, b, i, "&#39;");
      } else {
        var j := i - |a|;
        assert b[j] == '&';
        OccursAtAppend(a, b, j, "&amp;");
        OccursAtAppend(a, b, j, "&lt;");
        OccursAtAppend(a, b, j, "&gt;");
        OccursAtAppend(a, b, j, "&quot;");
        OccursAtAppend(a, b, j, "&#39;");
      }
    }
  }

  lemma EscapeCharIsEscaped(c: char)
    ensures IsEscaped(EscapeChar(c))
  {
    var e := EscapeChar(c);
    if c == '&' { assert OccursAt(e, 0, "&amp;"); }
    else if c == '<' { assert OccursAt(e, 0, "&lt;"); }
    else if c == '>' { assert OccursAt(e, 0, "&gt;"); }
    else if c == '"' { assert OccursAt(e, 0, "&quot;"); }
    else if c == '\'' { assert OccursAt(e, 0, "&#39;"); }
  }

  /** The output of escapeHtml holds none of < > " ' and every & in it
      starts one of &amp; &lt; &gt; &quot; &#39;. */
  lemma {:induction false} EscapeHtmlIsEscaped(s: string)
    ensures IsEscaped(EscapeHtml(s))
  {
    if s != [] {
      EscapeCharIsEscaped(s[0]);
      EscapeHtmlIsEscaped(s[1..]);
      EscapedAppend(EscapeChar(s[0]), EscapeHtml(s[1..]));
    }
  }

  /** escapeHtml works character by character: it distributes over
      concatenation. */
  lemma {:induction false} EscapeHtmlAppend(a: string, b: string)
    ensures EscapeHtml(a + b) == EscapeHtml(a) + EscapeHtml(b)
  {
    if a == [] {
      assert a + b == b;
    } else {
      assert (a + b)[0] == a[0] && (a + b)[1..] == a[1..] + b;
      EscapeHtmlAppend(a[1..], b);
      calc {
        EscapeHtml(a + b);
        EscapeChar(a[0]) + EscapeHtml(a[1..] + b);
        EscapeChar(a[0]) + (EscapeHtml(a[1..]) + EscapeHtml(b));
        (EscapeChar(a[0]) + EscapeHtml(a[1..])) + EscapeHtml(b);
      }
    }
  }

  /** A string with none of & < > " ' is left as it is. */
  lemma {:induction false} EscapeHtmlIdentity(s: string)
    requires forall i :: 0 <= i < |s| ==> !IsSpecial(s[i])
    ensures EscapeHtml(s) == s
  {
    if s != [] {
      EscapeHtmlIdentity(s[1..]);
    }
  }

  lemma UnescapeAmp(t: string)
    ensures UnescapeHtml("&amp;" + t) == "&" + UnescapeHtml(t)
  {
    var s := "&amp;" + t;
    assert s[..5] == "&amp;" && s[5..] == t;
  }

  lemma UnescapeLt(t: string)
    ensures UnescapeHtml("&lt;" + t) == "<" + UnescapeHtml(t)
  {
    var s := "&lt;" + t;
    assert s[..4] == "&lt;" && s[4..] == t;
    assert s[1] == 'l';
    assert !OccursAt(s, 0, "&amp;") by { assert "&amp;"[1] == 'a'; }
  }

  lemma UnescapeGt(t: string)
    ensures UnescapeHtml("&gt;" + t) == ">" + UnescapeHtml(t)
  {
    var s := "&gt;" + t;
    assert s[..4] == "&gt;" && s[4..] == t;
    assert s[1] == 'g';
    assert !OccursAt(s, 0, "&amp;") by { assert "&amp;"[1] == 'a'; }
    assert !OccursAt(s, 0, "&lt;") by { assert "&lt;"[1] == 'l'; }
  }

  lemma UnescapeQuot(t: string)
    ensures UnescapeHtml("&quot;" + t) == "\"" + UnescapeHtml(t)
  {
    var s := "&quot;" + t;
    assert s[..6] == "&quot;" && s[6..] == t;
    assert s[1] == 'q';
    assert !OccursAt(s, 0, "&amp;") by { assert "&amp;"[1] == 'a'; }
    assert !OccursAt(s, 0, "&lt;") by { assert "&lt;"[1] == 'l'; }
    assert !OccursAt(s, 0, "&gt;") by { assert "&gt;"[1] == 'g'; }
  }

  lemma UnescapeApos(t: string)
    ensures UnescapeHtml("&#39;" + t) == "'" + UnescapeHtml(t)
  {
    var s := "&#39;" + t;
    assert s[..5] == "&#39;" && s[5..] == t;
    assert s[1] == '#';
    assert !OccursAt(s, 0, "&amp;") by { assert "&amp;"[1] == 'a'; }
    assert !OccursAt(s, 0, "&lt;") by { assert "&lt;"[1] == 'l'; }
    assert !OccursAt(s, 0, "&gt;") by { assert "&gt;"[1] == 'g'; }
    assert !OccursAt(s, 0, "&quot;") by { assert "&quot;"[1] == 'q'; }
  }

  lemma UnescapePlain(c: char, t: string)
    requires !IsSpecial(c)
    ensures UnescapeHtml([c] + t) == [c] + UnescapeHtml(t)
  {
    var s := [c] + t;
    assert s[0] == c && s[1..] == t;
    assert !OccursAt(s, 0, "&amp;") by { assert "&amp;"[0] == '&'; }
    assert !OccursAt(s, 0, "&lt;") by { assert "&lt;"[0] == '&'; }
    assert !OccursAt(s, 0, "&gt;") by { assert "&gt;"[0] == '&'; }
    assert !OccursAt(s, 0, "&quot;") by { assert "&quot;"[0] == '&'; }
    assert !OccursAt(s, 0, "&#39;") by { assert "&#39;"[0] == '&'; }
  }

  lemma UnescapeEscapeChar(c: char, t: string)
    ensures UnescapeHtml(EscapeChar(c) + t) == [c] + UnescapeHtml(t)
  {
    if c == '&' { UnescapeAmp(t); }
    else if c == '<' { UnescapeLt(t); }
    else if c == '>' { UnescapeGt(t); }
    else if c == '"' { UnescapeQuot(t); }
    else if c == '\'' { UnescapeApos(t); }
    else { UnescapePlain(c, t); }
  }

  /** Decoding the entities recovers the original text, so escapeHtml loses
      nothing and never maps two names to the same display text. */
  lemma {:induction false} UnescapeEscapeHtml(s: string)
    ensures UnescapeHtml(EscapeHtml(s)) == s
  {
    if s != [] {
      UnescapeEscapeChar(s[0], EscapeHtml(s[1..]));
      UnescapeEscapeHtml(s[1..]);
    }
  }

  lemma EscapeHtmlInjective(a: string, b: string)
    requires EscapeHtml(a) == EscapeHtml(b)
    ensures a == b
  {
    UnescapeEscapeHtml(a);
    UnescapeEscapeHtml(b);
  }

  // -------------------------------------------------------------- geometry

  /** An axis-aligned box: top-left corner, width, height. */
  datatype Rect = Rect(x: real, y: real, w: real, h: real)

  /** An orb: centre, radius, leftward speed in px/s. */
  datatype Orb = Orb(x: real, y: real, r: real, speed: real)

  /** The point lies in the closed box. */
  predicate InRect(px: real, py: real, b: Rect) {
    b.x <= px <= b.x + b.w && b.y <= py <= b.y + b.h
  }

  /** rectsOverlap(a, b): the boxes are not separated along either axis;
      touching edges count as overlap. */
  predicate RectsOverlap(a: Rect, b: Rect)
    ensures RectsOverlap(a, b) && a.w >= 0.0 && a.h >= 0.0 && b.w >= 0.0 && b.h >= 0.0 ==>
              var px, py := MaxReal(a.x, b.x), MaxReal(a.y, b.y);
              InRect(px, py, a) && InRect(px, py, b)
  {
    !(a.x + a.w < b.x || a.x > b.x + b.w || a.y + a.h < b.y || a.y > b.y + b.h)
  }

  /** circleRectOverlap(c, r): the orb's centre lies in the box; the radius
      plays no part. */
  predicate CircleRectOverlap(c: Orb, b: Rect)
    ensures CircleRectOverlap(c, b) <==> InRect(c.x, c.y, b)
  {
    !(c.x < b.x || c.x > b.x + b.w || c.y < b.y || c.y > b.y + b.h)
  }

  lemma RectsOverlapSymmetric(a: Rect, b: Rect)
    ensures RectsOverlap(a, b) == RectsOverlap(b, a)
  {
  }

  lemma RectOverlapsItself(a: Rect)
    ensures RectsOverlap(a, a) <==> a.w >= 0.0 && a.h >= 0.0
  {
  }

  function MaxReal(a: real, b: real): real { if a >= b then a else b }

  /** For boxes of non-negative size, rectsOverlap holds exactly when the
      two closed boxes share a point. */
  lemma RectsOverlapIffCommonPoint(a: Rect, b: Rect)
    requires a.w >= 0.0 && a.h >= 0.0 && b.w >= 0.0 && b.h >= 0.0
    ensures RectsOverlap(a, b) <==> exists px, py :: InRect(px, py, a) && InRect(px, py, b)
  {
    if RectsOverlap(a, b) {
      var px, py := MaxReal(a.x, b.x), MaxReal(a.y, b.y);
      assert InRect(px, py, a) && InRect(px, py, b);
    }
  }

  /** circleRectOverlap is the test "centre in the closed box", whatever the
      radius. */
  lemma CircleRectOverlapIsCentreTest(c: Orb, b: Rect, radius: real)
    ensures CircleRectOverlap(c, b) <==> InRect(c.x, c.y, b)
    ensures CircleRectOverlap(c.(r := radius), b) == CircleRectOverlap(c, b)
  {
  }

  // ------------------------------------------------------------ difficulty

  /** difficultyMultiplier(): the select's value, "medium" when it is empty. */
  function DifficultyMultiplier(value: string): (m: real)
    ensures 0.8 <= m <= 1.5
    ensures value !in {"easy", "hard", "harder"} ==> m == 1.0
    ensures value == "easy" ==> m == 0.8
    ensures value == "" || value == "medium" ==> m == 1.0
    ensures value == "hard" ==> m == 1.25
    ensures value == "harder" ==> m == 1.5
  {
    var d := if value == "" then "medium" else value;
    if d == "easy" then 0.8
    else if d == "medium" then 1.0
    else if d == "hard" then 1.25
    else if d == "harder" then 1.5
    else 1.0
  }

  lemma DifficultyIncreases()
    ensures DifficultyMultiplier("easy") < DifficultyMultiplier("medium")
              < DifficultyMultiplier("hard") < DifficultyMultiplier("harder")
  {
  }

  // ------------------------------------------------------------ game state

  /** The screen the game is on: 'start', 'play', 'pause', 'gameover'. */
  datatype GameState = Start | Play | Pause | GameOver

  /** The state change of togglePause(). */
  function Toggled(s: GameState): (t: GameState)
    ensures s == Play <==> t == Pause
    ensures s == Pause <==> t == Play
    ensures (s == Start || s == GameOver) ==> t == s
  {
    if s == Play then Pause else if s == Pause then Play else s
  }

  /** The state change of resume(): togglePause() only when paused. */
  function Resumed(s: GameState): (t: GameState)
    ensures t != Pause
    ensures t != s <==> s == Pause
  {
    if s == Pause then Toggled(s) else s
  }

  /** Pausing and resuming by the toggle returns to where the game was. */
  lemma ToggleTwice(s: GameState)
    ensures Toggled(Toggled(s)) == s
  {
  }

  // ---------------------------------------------------------------- player

  const PlayerX: real := 80.0
  const PlayerW: real := 36.0
  const PlayerH: real := 48.0
  const JumpImpulse: real := -14.0
  const DoubleJumpImpulse: real := -12.0

  /** The mutable fields of the `player` object that the rules touch. */
  datatype Player = Player(y: real, vy: real, onGround: bool, jumps: int)

  /** At most two jumps in the air, none counted while standing. */
  predicate PlayerInv(p: Player) {
    0 <= p.jumps <= 2 && (p.onGround ==> p.jumps == 0)
  }

  /** The effect of jump(): from the ground a first jump; in the air after
      exactly one jump a second; otherwise nothing. */
  function Jumped(p: Player): (q: Player)
    ensures PlayerInv(p) ==> PlayerInv(q)
    ensures p.onGround ==> !q.onGround && q.jumps == 1 && q.vy == JumpImpulse
    ensures !p.onGround && p.jumps == 1 ==> !q.onGround && q.jumps == 2 && q.vy == DoubleJumpImpulse
    ensures !p.onGround && p.jumps != 1 ==> q == p
    ensures q.y == p.y
  {
    if p.onGround then p.(vy := JumpImpulse, onGround := false, jumps := 1)
    else if p.jumps == 1 then p.(vy := DoubleJumpImpulse, jumps := 2)
    else p
  }

  /** The landing step of update(): once the feet reach the ground line the
      player stands on it, at rest, with the jump count reset. */
  function Landed(p: Player, ground: real): (q: Player)
    ensures PlayerInv(p) ==> PlayerInv(q)
    ensures p.y + PlayerH >= ground ==> q.onGround && q.jumps == 0 && q.vy == 0.0 && q.y + PlayerH == ground
    ensures p.y + PlayerH < ground ==> q == p
  {
    if p.y + PlayerH >= ground then p.(y := ground - PlayerH, vy := 0.0, onGround := true, jumps := 0) else p
  }

  /** `n` jump requests with no landing in between. */
  function JumpTimes(p: Player, n: nat): Player {
    if n == 0 then p else Jumped(JumpTimes(p, n - 1))
  }

  /** Double jump, no more: from the ground, n jump requests leave the
      player airborne with min(n, 2) jumps, and requests beyond the second
      change nothing. */
  lemma {:induction false} AtMostTwoJumps(p: Player, n: nat)
    requires PlayerInv(p) && p.onGround
    ensures JumpTimes(p, n).jumps == (if n < 2 then n else 2)
    ensures n > 0 ==> !JumpTimes(p, n).onGround
    ensures n >= 2 ==> JumpTimes(p, n) == JumpTimes(p, 2)
  {
    if n > 0 {
      AtMostTwoJumps(p, n - 1);
    }
  }

  /** A player who is falling without having jumped (as after a restart in
      mid-air) cannot jump until landing. */
  lemma NoJumpWhileFallingUnjumped(p: Player)
    requires !p.onGround && p.jumps == 0
    ensures Jumped(p) == p
  {
  }

  // ------------------------------------------------------------------ orbs

  const MaxOrbs: nat := 100
  const OrbRadius: real := 10.0
  const BaseSpeed: real := 220.0

  /** The orb spawnOrb() creates: just off the right edge, at a height drawn
      from [100, 300), moving at 80% of the difficulty-scaled base speed.
      `viewWidth` is the canvas width in CSS pixels, `rand` the value of
      Math.random(). */
  function NewOrb(viewWidth: real, rand: real, difficulty: string): (o: Orb)
    ensures o.r == OrbRadius && o.x == viewWidth + 60.0
  {
    Orb(viewWidth + 60.0, 100.0 + rand * 200.0, OrbRadius, BaseSpeed * DifficultyMultiplier(difficulty) * 0.8)
  }

  /** The buffer after spawnOrb(): push, then shift once if over capacity. */
  function Spawned(orbs: seq<Orb>, o: Orb): (r: seq<Orb>)
    ensures |r| > 0 && r[|r| - 1] == o
    ensures |orbs| <= MaxOrbs ==> |r| <= MaxOrbs
    ensures |orbs| < MaxOrbs ==> r == orbs + [o]
    ensures |orbs| >= MaxOrbs ==> r == orbs[1..] + [o]
  {
    var pushed := orbs + [o];
    if |pushed| > MaxOrbs then pushed[1..] else pushed
  }

  /** An orb after moving left for `dt` milliseconds. */
  function Moved(o: Orb, dt: real): Orb {
    o.(x := o.x - o.speed * dt / 1000.0)
  }

  /** The orb has left the screen far enough to be dropped. */
  predicate OffScreen(o: Orb) {
    o.x + o.r < -50.0
  }

  function PlayerBox(y: real): Rect {
    Rect(PlayerX, y, PlayerW, PlayerH)
  }

  /** The orb is picked up by a player whose top is at `y`. */
  predicate Collected(o: Orb, y: real) {
    CircleRectOverlap(o, PlayerBox(y))
  }

  /** An orb of the spawned size cannot be off screen and picked up at once,
      since the player never leaves x = 80. */
  lemma OffScreenNotCollected(o: Orb, y: real)
    requires o.r == OrbRadius && OffScreen(o)
    ensures !Collected(o, y)
  {
  }

  predicate AllSpawnedSize(orbs: seq<Orb>) {
    forall k :: 0 <= k < |orbs| ==> orbs[k].r == OrbRadius
  }

  /** The orbs that survive one pass of update()'s orb loop, moved, in their
      original order. */
  function SweptOrbs(orbs: seq<Orb>, dt: real, y: real): (r: seq<Orb>)
    ensures |r| <= |orbs|
    ensures AllSpawnedSize(orbs) ==> AllSpawnedSize(r)
  {
    if orbs == [] then []
    else
      var o := Moved(orbs[0], dt);
      (if OffScreen(o) || Collected(o, y) then [] else [o]) + SweptOrbs(orbs[1..], dt, y)
  }

  /** How many orbs that pass picks up. */
  function CollectedCount(orbs: seq<Orb>, dt: real, y: real): (n: nat)
    ensures n + |SweptOrbs(orbs, dt, y)| <= |orbs|
  {
    if orbs == [] then 0
    else
      var o := Moved(orbs[0], dt);
      (if !OffScreen(o) && Collected(o, y) then 1 else 0) + CollectedCount(orbs[1..], dt, y)
  }

  /** array.splice(i, 1): removes the element at `i`, if there is one. */
  function Splice(s: seq<Orb>, i: nat): seq<Orb> {
    if i < |s| then s[..i] + s[i + 1..] else s
  }

  /** One step of the backward sweep: with the part after `i` already
      swept, moving the orb at `i` in place and splicing it out when it is
      dropped leaves the part from `i` on swept, and adds the orb to the
      count when it is picked up. */
  lemma SweepStep(orig: seq<Orb>, i: nat, dt: real, y: real)
    requires i < |orig|
    ensures var o := Moved(orig[i], dt);
            var cur := orig[..i + 1] + SweptOrbs(orig[i + 1..], dt, y);
            var next := orig[..i] + SweptOrbs(orig[i..], dt, y);
            && cur[i] == orig[i]
            && (OffScreen(o) || Collected(o, y) ==> Splice(cur[i := o], i) == next)
            && (!OffScreen(o) && !Collected(o, y) ==> cur[i := o] == next)
            && CollectedCount(orig[i..], dt, y)
               == (if !OffScreen(o) && Collected(o, y) then 1 else 0) + CollectedCount(orig[i + 1..], dt, y)
  {
    var o := Moved(orig[i], dt);
    var rest := SweptOrbs(orig[i + 1..], dt, y);
    var cur := orig[..i + 1] + rest;
    assert orig[i..][1..] == orig[i + 1..];
    assert cur[i := o] == orig[..i] + [o] + rest;
    var moved := cur[i := o];
    assert moved[..i] == orig[..i] && moved[i + 1..] == rest;
    if OffScreen(o) || Collected(o, y) {
      assert SweptOrbs(orig[i..], dt, y) == rest;
    } else {
      assert SweptOrbs(orig[i..], dt, y) == [o] + rest;
      assert orig[..i] + [o] + rest == orig[..i] + ([o] + rest);
    }
  }

  function MaxInt(a: int, b: int): int { if a >= b then a else b }

  // --------------------------------------------------------------- scores

  const NameLimit: nat := 40

  /** The body postScore() sends: {name, score, mode}. */
  datatype Post = Post(name: string, score: int, mode: string)

  /** What saveIfHigh() posts: the name field or "Anon", cut to 40
      characters; the floored score; the difficulty or "medium". */
  function PostFor(playerName: string, score: int, difficulty: string): (p: Post)
    ensures |p.name| <= NameLimit && p.score == score
    ensures playerName == "" ==> p.name == "Anon"
    ensures playerName != "" && |playerName| <= NameLimit ==> p.name == playerName
    ensures |playerName| > NameLimit ==> p.name == playerName[..NameLimit]
    ensures p.mode == (if difficulty == "" then "medium" else difficulty)
  {
    var name := if playerName == "" then "Anon" else playerName;
    Post(if |name| <= NameLimit then name else name[..NameLimit], score, if difficulty == "" then "medium" else difficulty)
  }

  // ----------------------------------------------------------------- game

  class Game {
    var state: GameState
    var player: Player
    var orbs: seq<Orb>
    /** The running score: 10 per orb plus a fraction per millisecond of
        play, floored where it is shown or saved. */
    var score: real
    /** The best floored score seen on this device. */
    var high: int
    /** The score submissions sent to the server, oldest first. */
    var posted: seq<Post>

    ghost predicate Valid()
      reads this
    {
      PlayerInv(player) && |orbs| <= MaxOrbs && AllSpawnedSize(orbs)
    }

    /** Script start-up: the 'start' screen, the player at the origin and
        not standing, no orbs, and the high score read back from storage. */
    constructor (storedHigh: int)
      ensures Valid()
      ensures state == Start && player == Player(0.0, 0.0, false, 0)
      ensures orbs == [] && score == 0.0 && high == storedHigh && posted == []
    {
      state := Start;
      player := Player(0.0, 0.0, false, 0);
      orbs := [];
      score := 0.0;
      high := storedHigh;
      posted := [];
    }

    /** startGame(): reset() then 'play'. The player is put half-way down the
        view, at rest, with no jumps; whether it stands is left as it was. */
    method StartGame(viewHeight: real)
      requires Valid()
      modifies this
      ensures Valid()
      ensures state == Play && score == 0.0 && orbs == []
      ensures player == old(player).(y := viewHeight / 2.0, vy := 0.0, jumps := 0)
      ensures high == old(high) && posted == old(posted)
    {
      score := 0.0;
      orbs := [];
      player := player.(y := viewHeight / 2.0, vy := 0.0, jumps := 0);
      state := Play;
    }

    /** jump(). */
    method Jump()
      requires Valid()
      modifies this`player
      ensures Valid()
      ensures player == Jumped(old(player))
    {
      if player.onGround {
        player := player.(vy := JumpImpulse, onGround := false, jumps := 1);
      } else if player.jumps == 1 {
        player := player.(vy := DoubleJumpImpulse, jumps := 2);
      }
    }

    /** The ground test of update(), with `ground` the ground line. */
    method Land(ground: real)
      requires Valid()
      modifies this`player
      ensures Valid()
      ensures player == Landed(old(player), ground)
    {
      if player.y + PlayerH >= ground {
        player := player.(y := ground - PlayerH, vy := 0.0, onGround := true, jumps := 0);
      }
    }

    /** togglePause(). */
    method TogglePause()
      requires Valid()
      modifies this`state
      ensures Valid()
      ensures state == Toggled(old(state))
    {
      if state == Play {
        state := Pause;
      } else if state == Pause {
        state := Play;
      }
    }

    /** resume(). */
    method Resume()
      requires Valid()
      modifies this`state
      ensures Valid()
      ensures state == Resumed(old(state))
    {
      if state == Pause {
        TogglePause();
      }
    }

    /** spawnOrb(): push the new orb, then drop the oldest when over
        capacity. */
    method SpawnOrb(viewWidth: real, rand: real, difficulty: string)
      requires Valid()
      modifies this`orbs
      ensures Valid()
      ensures orbs == Spawned(old(orbs), NewOrb(viewWidth, rand, difficulty))
    {
      orbs := orbs + [NewOrb(viewWidth, rand, difficulty)];
      if |orbs| > MaxOrbs {
        orbs := orbs[1..];
      }
    }

    /** The orb loop of update(), last orb first: each orb moves left for
        `dt` ms, is dropped once off screen, and is removed for 10 points
        when its centre is inside the player. */
    method SweepOrbs(dt: real)
      requires Valid()
      modifies this`orbs, this`score
      ensures Valid()
      ensures orbs == SweptOrbs(old(orbs), dt, player.y)
      ensures score == old(score) + (10 * CollectedCount(old(orbs), dt, player.y)) as real
    {
      ghost var orig := orbs;
      var y := player.y;
      var cur, points := orbs, score;
      var i := |cur| - 1;
      while i >= 0
        invariant -1 <= i < |orig| && AllSpawnedSize(orig)
        invariant cur == orig[..i + 1] + SweptOrbs(orig[i + 1..], dt, y)
        invariant points == old(score) + (10 * CollectedCount(orig[i + 1..], dt, y)) as real
        decreases i
      {
        SweepStep(orig, i, dt, y);
        var o := Moved(cur[i], dt);
        cur := cur[i := o];
        if OffScreen(o) {
          OffScreenNotCollected(o, y);
          cur := Splice(cur, i);
        }
        if CircleRectOverlap(o, PlayerBox(y)) {
          cur := Splice(cur, i);
          points := points + 10.0;
        }
        i := i - 1;
      }
      assert orig[0..] == orig;
      orbs, score := cur, points;
      assert |orbs| <= MaxOrbs && AllSpawnedSize(orbs);
    }

    /** saveIfHigh(): raise the local best to the floored score if it beats
        it, then post the floored score to the server whatever it is. */
    method SaveIfHigh(playerName: string, difficulty: string)
      requires Valid()
      modifies this`high, this`posted
      ensures Valid()
      ensures high == MaxInt(old(high), score.Floor) && high >= old(high)
      ensures posted == old(posted) + [PostFor(playerName, score.Floor, difficulty)]
    {
      var s := score.Floor;
      if s > high {
        high := s;
      }
      posted := posted + [PostFor(playerName, score.Floor, difficulty)];
    }

    /** A collision with an obstacle in update(): 'gameover', then
        saveIfHigh(). */
    method HitObstacle(playerName: string, difficulty: string)
      requires Valid()
      modifies this`state, this`high, this`posted
      ensures Valid()
      ensures state == GameOver
      ensures high == MaxInt(old(high), score.Floor) && high >= old(high)
      ensures posted == old(posted) + [PostFor(playerName, score.Floor, difficulty)]
    {
      state := GameOver;
      SaveIfHigh(playerName, difficulty);
    }
  }
}
