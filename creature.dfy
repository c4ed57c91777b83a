/**
 * A creature's own bookkeeping: hearts, rupees, friendliness, what it may
 * walk on, the hiding sentinel and the text shown when it kills the player.
 * `hasTrait` is a set of traits (the creature's own together with those of
 * the items in its hands), and the messages a creature publishes are an
 * event log it appends to.
 */
module Creatures {
  import opened Wrappers
  import opened Tiles
  import opened Screens

  /** The traits these operations ask about; every other one is `OtherTrait`. */
  datatype Trait = Walker | Swimmer | Flier | ExtraDefense | ExtraHp | Social | OtherTrait(id: nat)

  /** The messages `loseHearts` and `hide` publish, with the creature that caused them. */
  datatype Message =
    | BlockSomeDamage(attacker: Creature)
    | Attacked(attacker: Creature, kind: string)
    | Killed(attacker: Creature)
    | CallForHelp(attacker: Creature)
    | Hid

  /** The most rupees a creature can carry. */
  const RupeeCap := 255

  /** Where a hidden creature is parked while it hides. */
  const HiddenPosition := Point(-100, -100)

  const SlainPrefix := "You were slain by "
  const DebtCause := "You spent you last heart after running out of rupees."

  function Min(a: int, b: int): (m: int)
    ensures m <= a && m <= b && (m == a || m == b)
  {
    if a < b then a else b
  }

  predicate IsUpper(c: char) {
    'A' <= c <= 'Z'
  }

  /** `Character.toLowerCase` on the ASCII letters; any other character is its own lower case. */
  function Lower(c: char): (r: char)
    ensures IsUpper(c) ==> r as int == c as int + 32
    ensures !IsUpper(c) ==> r == c
  {
    if IsUpper(c) then (c as int + 32) as char else c
  }

  /** Two characters have the same lower case when they are equal or one is the capital of the other. */
  lemma {:induction false} LowerSame(c: char, d: char)
    ensures Lower(c) == Lower(d) <==>
      c == d || (IsUpper(c) && d as int == c as int + 32) || (IsUpper(d) && c as int == d as int + 32)
  {
  }

  /** The hit that gets through: EXTRA_DEFENSE blocks one heart of a hit worth more than one. */
  function Damage(amount: int, defends: bool): (d: int)
    ensures amount > 1 && defends ==> d == amount - 1
    ensures !(amount > 1 && defends) ==> d == amount
  {
    if amount > 1 && defends then amount - 1 else amount
  }

  /** Hearts after `loseHearts`: a creature already down loses nothing more. */
  function HeartsAfterLoss(hearts: int, amount: int, defends: bool): int
  {
    if hearts < 1 then hearts else hearts - Damage(amount, defends)
  }

  /**
   * A hit never heals; a creature already down loses nothing; a hit of at
   * least one heart costs a standing creature at least one heart: exactly the
   * hit, or one fewer when EXTRA_DEFENSE blocks a hit worth more than one.
   */
  lemma {:induction false} LossBounds(hearts: int, amount: int, defends: bool)
    requires amount >= 0
    ensures HeartsAfterLoss(hearts, amount, defends) <= hearts
    ensures hearts >= 1 && amount >= 1 ==> HeartsAfterLoss(hearts, amount, defends) < hearts
    ensures hearts >= 1 ==> hearts - amount <= HeartsAfterLoss(hearts, amount, defends)
    ensures hearts >= 1 && !defends ==> HeartsAfterLoss(hearts, amount, defends) == hearts - amount
    ensures hearts < 1 ==> HeartsAfterLoss(hearts, amount, defends) == hearts
    ensures hearts >= 1 && amount > 1 && defends ==> HeartsAfterLoss(hearts, amount, defends) == hearts - amount + 1
    ensures hearts >= 1 && !(amount > 1 && defends) ==> HeartsAfterLoss(hearts, amount, defends) == hearts - amount
  {
  }

  /**
   * The player's purse after spending `amount` from `rupees`, and the debt
   * that is taken in hearts: the purse never goes negative, and what it could
   * not pay is exactly the debt.
   */
  function Spend(rupees: int, amount: int): (r: (int, int))
    ensures r.0 >= 0 && r.1 >= 0
    ensures r.0 - r.1 == rupees - amount
    ensures r.0 == 0 || r.1 == 0
  {
    if rupees - amount < 0 then (0, amount - rupees) else (rupees - amount, 0)
  }

  /** The article `getSlainByText` puts before a name that starts with `first`. */
  function Article(first: char): (a: string)
    ensures IsUpper(first) ==> a == ""
    ensures !IsUpper(first) && first in "aeiou" ==> a == "an "
    ensures !IsUpper(first) && first !in "aeiou" ==> a == "a "
  {
    if IsUpper(first) then "" else if first in "aeiou" then "an " else "a "
  }

  /**
   * `getSlainByText`: the fixed prefix, the article and the name, in that
   * order. The name must not be empty (its first character is read).
   */
  function SlainByText(name: string): (r: string)
    requires |name| > 0
    ensures |r| == |SlainPrefix| + |Article(name[0])| + |name|
    ensures r[..|SlainPrefix|] == SlainPrefix
    ensures r[|SlainPrefix|..|r| - |name|] == Article(name[0])
    ensures r[|r| - |name|..] == name
  {
    SlainPrefix + Article(name[0]) + name
  }

  /** A proper name reads bare, a common name starting with a vowel takes "an ", any other "a ". */
  lemma {:induction false} SlainByTextCases(name: string)
    requires |name| > 0
    ensures IsUpper(name[0]) ==> SlainByText(name) == SlainPrefix + name
    ensures !IsUpper(name[0]) && name[0] in "aeiou" ==> SlainByText(name) == SlainPrefix + "an " + name
    ensures !IsUpper(name[0]) && name[0] !in "aeiou" ==> SlainByText(name) == SlainPrefix + "a " + name
  {
  }

  class Creature {
    const name: string
    const glyph: char
    var position: Point
    var positionBeforeHiding: Option<Point>
    var hearts: int
    /** the raw field; `MaxHearts()` adds the EXTRA_HP bonus */
    var maxHearts: int
    var rupees: int
    var traits: set<Trait>
    var causeOfDeath: Option<string>
    var messages: seq<Message>

    /** A creature with full hearts, as `World.add` has placed it at `position`. */
    constructor (name: string, glyph: char, maxHp: int, position: Point)
      ensures this.name == name && this.glyph == glyph && this.position == position
      ensures maxHearts == maxHp && hearts == maxHp && rupees == 0
      ensures traits == {} && causeOfDeath == None && messages == [] && positionBeforeHiding == None
    {
      this.name := name;
      this.glyph := glyph;
      this.position := position;
      maxHearts := maxHp;
      hearts := maxHp;
      rupees := 0;
      traits := {};
      causeOfDeath := None;
      messages := [];
      positionBeforeHiding := None;
    }

    predicate IsHuman() {
      glyph == '@'
    }

    predicate IsPlayer() {
      name == "player"
    }

    function MaxHearts(): int
      reads this
    {
      maxHearts + if ExtraHp in traits then 3 else 0
    }

    /**
     * `recoverHearts`: gain `amount` hearts up to the raw `maxHearts`, which
     * is below `MaxHearts()` for an EXTRA_HP creature.
     */
    method RecoverHearts(amount: int)
      modifies this`hearts
      ensures hearts == Min(old(hearts) + amount, maxHearts)
      ensures hearts <= maxHearts <= MaxHearts()
      ensures amount >= 0 && old(hearts) <= maxHearts ==> old(hearts) <= hearts
    {
      hearts := Min(hearts + amount, maxHearts);
    }

    /** `gainRupees`: the purse fills up to 255 and never beyond. */
    method GainRupees(amount: int)
      modifies this`rupees
      ensures rupees == Min(old(rupees) + amount, RupeeCap)
      ensures rupees <= RupeeCap
      ensures amount >= 0 && old(rupees) <= RupeeCap ==> old(rupees) <= rupees
    {
      rupees := Min(rupees + amount, RupeeCap);
    }

    /** The messages one `loseHearts` call publishes, in order. */
    function LossMessages(attacker: Creature, amount: int, specialType: Option<string>): seq<Message>
      reads this
    {
      if hearts < 1 then []
      else
        var defends := ExtraDefense in traits;
        (if amount > 1 && defends then [BlockSomeDamage(attacker)] else []) +
        (if specialType.Some? then [Attacked(attacker, specialType.value)] else []) +
        (if HeartsAfterLoss(hearts, amount, defends) < 1 then [Killed(attacker)]
         else if Social in traits then [CallForHelp(attacker)] else [])
    }

    /**
     * `loseHearts`: nothing happens to a creature already down; otherwise it
     * loses the hit (one less with EXTRA_DEFENSE on a hit above one), and the
     * cause of death is recorded exactly when this hit brings it below one.
     */
    method LoseHearts(attacker: Creature, amount: int, specialType: Option<string>, cause: string)
      modifies this`hearts, this`causeOfDeath, this`messages
      ensures hearts == HeartsAfterLoss(old(hearts), amount, ExtraDefense in traits)
      ensures causeOfDeath == if old(hearts) >= 1 && hearts < 1 then Some(cause) else old(causeOfDeath)
      ensures messages == old(messages) + old(LossMessages(attacker, amount, specialType))
    {
      if hearts < 1 {
        return;
      }
      var amount := amount;
      if amount > 1 && ExtraDefense in traits {
        amount := amount - 1;
        messages := messages + [BlockSomeDamage(attacker)];
      }
      hearts := hearts - amount;
      if specialType.Some? {
        messages := messages + [Attacked(attacker, specialType.value)];
      }
      if hearts < 1 {
        causeOfDeath := Some(cause);
        messages := messages + [Killed(attacker)];
      } else if Social in traits {
        messages := messages + [CallForHelp(attacker)];
      }
    }

    /**
     * `loseRupees`: only the player pays. The purse never goes negative, and
     * the shortfall is taken as an equal `loseHearts` with itself as attacker.
     */
    method LoseRupees(amount: int)
      modifies this`rupees, this`hearts, this`causeOfDeath, this`messages
      ensures !IsPlayer() ==>
        rupees == old(rupees) && hearts == old(hearts) && causeOfDeath == old(causeOfDeath) && messages == old(messages)
      ensures IsPlayer() ==> rupees == Spend(old(rupees), amount).0
      ensures IsPlayer() && Spend(old(rupees), amount).1 == 0 ==>
        hearts == old(hearts) && causeOfDeath == old(causeOfDeath) && messages == old(messages)
      ensures IsPlayer() && Spend(old(rupees), amount).1 > 0 ==>
        var debt := Spend(old(rupees), amount).1;
        hearts == HeartsAfterLoss(old(hearts), debt, ExtraDefense in traits) &&
        causeOfDeath == (if old(hearts) >= 1 && hearts < 1 then Some(DebtCause) else old(causeOfDeath)) &&
        messages == old(messages) + old(LossMessages(this, debt, None))
    {
      if !IsPlayer() {
        return;
      }
      rupees := rupees - amount;
      if rupees < 0 {
        var debt := 0 - rupees;
        rupees := 0;
        LoseHearts(this, debt, None, DebtCause);
      }
    }

    /** `isFriendlyTo`: two humans only to themselves, everyone else by glyph regardless of case. */
    predicate IsFriendlyTo(other: Creature)
      ensures IsFriendlyTo(other) ==> IsHuman() == other.IsHuman()
    {
      LowerSame(glyph, other.glyph);
      if IsHuman() && other.IsHuman() then this == other else Lower(other.glyph) == Lower(glyph)
    }

    /**
     * Friendliness is mutual and every creature is friendly to itself; two
     * humans are friendly only when they are the same creature, anyone else
     * by glyph regardless of case; a human and a non-human are never
     * friendly, since no other glyph has the lower case of '@'.
     */
    lemma {:induction false} FriendlyFacts(other: Creature)
      ensures IsFriendlyTo(other) == other.IsFriendlyTo(this)
      ensures IsFriendlyTo(this)
      ensures IsHuman() != other.IsHuman() ==> !IsFriendlyTo(other)
      ensures IsHuman() && other.IsHuman() ==> (IsFriendlyTo(other) <==> this == other)
      ensures !(IsHuman() && other.IsHuman()) ==> (IsFriendlyTo(other) <==> Lower(other.glyph) == Lower(glyph))
    {
      LowerSame(glyph, other.glyph);
    }

    /**
     * `canEnter`: a walker on ground, a swimmer on swimmable tiles, a flier on
     * flyable ones; a creature with none of the three moving traits can enter
     * nothing.
     */
    function CanEnter(tile: Tile, terrain: Terrain): (r: bool)
      reads this
      ensures r ==> Walker in traits || Swimmer in traits || Flier in traits
      ensures r ==>
        (Walker in traits && terrain.isGround(tile)) ||
        (Swimmer in traits && terrain.isSwimmable(tile)) ||
        (Flier in traits && terrain.isFlyable(tile))
      ensures r <== Walker in traits && terrain.isGround(tile)
      ensures r <== Swimmer in traits && terrain.isSwimmable(tile)
      ensures r <== Flier in traits && terrain.isFlyable(tile)
    {
      (Walker in traits && terrain.isGround(tile)) ||
      (Swimmer in traits && terrain.isSwimmable(tile)) ||
      (Flier in traits && terrain.isFlyable(tile))
    }

    /** `isHidden`: parked at the sentinel position, which is off every world. */
    function IsHidden(): (r: bool)
      reads this
      ensures r <==> position.x == -100 && position.y == -100
      ensures r ==> position.x < 0 && position.y < 0
    {
      position == HiddenPosition
    }

    /**
     * `hide`, given the tile under the creature: on a tile one cannot hide in
     * nothing changes; otherwise the position is saved and the creature moves
     * to the sentinel, which makes it hidden.
     */
    method Hide(here: Tile, terrain: Terrain)
      modifies this`position, this`positionBeforeHiding, this`messages
      ensures !terrain.canHideIn(here) ==>
        position == old(position) && positionBeforeHiding == old(positionBeforeHiding) && messages == old(messages)
      ensures terrain.canHideIn(here) ==>
        IsHidden() && positionBeforeHiding == Some(old(position)) && messages == old(messages) + [Hid]
    {
      if !terrain.canHideIn(here) {
        return;
      }
      positionBeforeHiding := Some(position);
      messages := messages + [Hid];
      position := HiddenPosition;
    }
  }
}
