/**
 Wearing, wielding and taking off: the slots of a character, the marks on the items,
 and the table of bonuses that is kept up to date in place.
 */
module Equipment {
  import opened Wrappers

  type Props = map<string, int>

  // --------------------------------------------------------------- bonus tables

  function Get(p: Props, k: string): int { if k in p then p[k] else 0 }

  function Plus(a: Props, b: Props): Props
  {
    map k | k in a.Keys + b.Keys :: Get(a, k) + Get(b, k)
  }

  function Minus(a: Props, b: Props): Props
  {
    map k | k in a.Keys + b.Keys :: Get(a, k) - Get(b, k)
  }

  /** The sum over the equipped items of what each contributes to one key. */
  ghost function Total<T>(gear: map<T, Props>, k: string): int
    decreases |gear|
  {
    if gear == map[] then 0 else var i :| i in gear; Get(gear[i], k) + Total(gear - {i}, k)
  }

  lemma {:induction false} TotalPick<T>(gear: map<T, Props>, i: T, k: string)
    requires i in gear
    ensures Total(gear, k) == Get(gear[i], k) + Total(gear - {i}, k)
    decreases |gear|
  {
    var j :| j in gear && Total(gear, k) == Get(gear[j], k) + Total(gear - {j}, k);
    if j != i {
      assert |gear - {j}| == |gear| - 1 by { assert (gear - {j}).Keys == gear.Keys - {j}; }
      assert |gear - {i}| == |gear| - 1 by { assert (gear - {i}).Keys == gear.Keys - {i}; }
      TotalPick(gear - {j}, i, k);
      TotalPick(gear - {i}, j, k);
      assert gear - {j} - {i} == gear - {i} - {j};
    }
  }

  /** Every bonus is its base value plus what the equipped items contribute. */
  ghost predicate InBalance<T>(apply: Props, base: Props, gear: map<T, Props>)
  {
    forall k :: Get(apply, k) == Get(base, k) + Total(gear, k)
  }

  lemma BalanceAdded<T>(apply: Props, base: Props, gear: map<T, Props>, i: T, p: Props)
    requires InBalance(apply, base, gear) && i !in gear
    ensures InBalance(Plus(apply, p), base, gear[i := p])
  {
    forall k ensures Get(Plus(apply, p), k) == Get(base, k) + Total(gear[i := p], k) {
      TotalPick(gear[i := p], i, k);
      assert gear[i := p] - {i} == gear;
    }
  }

  lemma BalanceRemoved<T>(apply: Props, base: Props, gear: map<T, Props>, i: T)
    requires InBalance(apply, base, gear) && i in gear
    ensures InBalance(Minus(apply, gear[i]), base, gear - {i})
  {
    forall k ensures Get(Minus(apply, gear[i]), k) == Get(base, k) + Total(gear - {i}, k) {
      TotalPick(gear, i, k);
    }
  }

  lemma NoKeys(a: Props, p: Props)
    ensures Plus(a, p - p.Keys) == a && Minus(a, p - p.Keys) == a
  {
    assert p - p.Keys == map[];
  }

  lemma NothingLeft(p: Props, keys: set<string>)
    requires keys == {}
    ensures p - keys == p
  {
  }

  /** One more key has been dealt with. */
  lemma OneKey(a: Props, p: Props, keys: set<string>, k: string)
    requires k in keys && k in p
    ensures var d := Plus(a, p - keys);
      Plus(a, p - (keys - {k})) == d[k := if k !in d then p[k] else d[k] + p[k]]
    ensures var d := Minus(a, p - keys);
      Minus(a, p - (keys - {k})) == d[k := Get(d, k) - p[k]]
  {
    assert p - (keys - {k}) == (p - keys)[k := p[k]];
  }

  // ------------------------------------------------------- characters and items

  datatype Mark = Loose | Worn | Wielded

  class Item {
    const weaponProp: Option<Props>
    const armorProp: Props
    const armorType: string
    const twoHanded: bool
    const secondary: bool  // may be held in the other hand
    var equipped: Mark
    var environment: Character?  // null when the surroundings are not a character

    constructor (weaponProp: Option<Props>, armorProp: Props, armorType: string, twoHanded: bool, secondary: bool)
      ensures this.weaponProp == weaponProp && this.armorProp == armorProp && this.armorType == armorType
      ensures this.twoHanded == twoHanded && this.secondary == secondary
      ensures equipped == Loose && environment == null
    {
      this.weaponProp, this.armorProp, this.armorType := weaponProp, armorProp, armorType;
      this.twoHanded, this.secondary := twoHanded, secondary;
      equipped, environment := Loose, null;
    }

    /** What the item contributes under a mark. */
    ghost function Bonus(m: Mark): Props
    {
      match m
      case Loose => map[]
      case Worn => armorProp
      case Wielded => if weaponProp.Some? then weaponProp.value else map[]
    }
  }

  class Character {
    var weapon: Item?
    var secondaryWeapon: Item?
    var armor: map<string, Item>
    var apply: Props
    ghost var base: Props              // the bonuses that do not come from items
    ghost var items: set<Item>         // what the character carries
    ghost var gear: map<Item, Props>   // the equipped items and what they contribute

    /** Carried items know where they are, and the equipped ones are marked. */
    ghost predicate Marked()
      reads this`items, this`gear, items
    {
      && gear.Keys <= items
      && forall i :: i in items ==>
        && i.environment == this
        && (i in gear <==> i.equipped != Loose)
        && (i in gear ==> gear[i] == i.Bonus(i.equipped))
    }

    /** Every marked item fills its slot. */
    ghost predicate InSlots()
      reads this`gear, this`weapon, this`secondaryWeapon, this`armor, gear.Keys
    {
      forall i :: i in gear ==> FillsSlot(i)
    }

    ghost predicate FillsSlot(i: Item)
      reads this`weapon, this`secondaryWeapon, this`armor, i`equipped
    {
      && (i.equipped == Wielded ==> i == weapon || i == secondaryWeapon)
      && (i.equipped == Worn ==> i.armorType in armor && armor[i.armorType] == i)
    }

    /** Every marked item but one. */
    ghost predicate InSlotsBut(x: Item)
      reads this`gear, this`weapon, this`secondaryWeapon, this`armor, gear.Keys
    {
      forall i :: i in gear && i != x ==> FillsSlot(i)
    }

    ghost predicate NotHeld(x: Item)
      reads this`weapon, this`secondaryWeapon, this`armor
    {
      weapon != x && secondaryWeapon != x && forall t :: t in armor ==> armor[t] != x
    }

    /** Every filled slot holds a marked item; the items in `pending` are only being
        put into a hand. */
    ghost predicate SlotsFilled(pending: set<Item>)
      reads this`gear, this`weapon, this`secondaryWeapon, this`armor, gear.Keys
    {
      && (weapon != null && weapon !in pending ==> weapon in gear && weapon.equipped == Wielded)
      && (secondaryWeapon != null && secondaryWeapon !in pending
          ==> secondaryWeapon in gear && secondaryWeapon.equipped == Wielded)
      && (weapon != null ==> weapon != secondaryWeapon)
      && (forall t :: t in armor ==> armor[t] in gear && armor[t].equipped == Worn && armor[t].armorType == t)
    }

    ghost predicate ValidBut(pending: set<Item>)
      reads this, items, gear.Keys
    {
      && Marked() && InSlots() && SlotsFilled(pending)
      && pending <= items - gear.Keys
      && InBalance(apply, base, gear)
    }

    ghost predicate Valid()
      reads this, items, gear.Keys
    {
      ValidBut({})
    }

    constructor (base: Props)
      ensures Valid() && items == {} && gear == map[] && apply == base && this.base == base
      ensures weapon == null && secondaryWeapon == null && armor == map[]
    {
      weapon, secondaryWeapon, armor := null, null, map[];
      apply, this.base, items, gear := base, base, {}, map[];
    }

    /** Add the bonuses of p key by key. */
    method AddBonuses(p: Props)
      modifies this`apply
      ensures apply == Plus(old(apply), p)
    {
      hide Plus;
      ghost var before := apply;
      NoKeys(before, p);
      var keys := p.Keys;
      while keys != {}
        invariant keys <= p.Keys
        invariant apply == Plus(before, p - keys)
        decreases keys
      {
        var k :| k in keys;
        OneKey(before, p, keys, k);
        apply := apply[k := if k !in apply then p[k] else apply[k] + p[k]];
        keys := keys - {k};
      }
      NothingLeft(p, keys);
    }

    method RemoveBonuses(p: Props)
      modifies this`apply
      ensures apply == Minus(old(apply), p)
    {
      hide Minus;
      ghost var before := apply;
      NoKeys(before, p);
      var keys := p.Keys;
      while keys != {}
        invariant keys <= p.Keys
        invariant apply == Minus(before, p - keys)
        decreases keys
      {
        var k :| k in keys;
        OneKey(before, p, keys, k);
        apply := apply[k := Get(apply, k) - p[k]];
        keys := keys - {k};
      }
      NothingLeft(p, keys);
    }

    // ------------------------------------------------------------ wear and unequip

    method Wear(item: Item) returns (worn: bool)
      requires Valid() && item in items
      modifies this`armor, this`apply, this`gear, item`equipped
      ensures Valid()
      ensures worn <==> old(item.equipped) != Loose
                        || (Get(item.armorProp, "armor") != 0 && item.armorType !in old(armor))
      ensures gear == if worn && old(item.equipped) == Loose then old(gear)[item := item.armorProp] else old(gear)
    {
      if item.equipped != Loose {
        return true;
      }
      if Get(item.armorProp, "armor") == 0 {
        return false;
      }
      if item.armorType in armor {
        return false;
      }
      PutOn(item);
      hide InBalance, Marked, InSlots, ArmorFilledBut;
      MarkWorn(item);
      return true;
    }

    /** The slot is taken, the item not yet marked. */
    method PutOn(item: Item)
      requires Valid() && item in items && item.equipped == Loose && item.armorType !in armor
      modifies this`armor
      ensures Marked() && InSlots() && ArmorFilledBut(item) && InBalance(apply, base, gear)
      ensures item !in gear && armor == old(armor)[item.armorType := item]
    {
      hide InBalance;
      armor := armor[item.armorType := item];
    }

    method MarkWorn(item: Item)
      requires Marked() && InSlots() && ArmorFilledBut(item) && InBalance(apply, base, gear)
      requires item in items && item !in gear && item.armorType in armor && armor[item.armorType] == item
      modifies this`apply, this`gear, item`equipped
      ensures Valid() && gear == old(gear)[item := item.armorProp]
    {
      hide InBalance;
      Equip(item, Worn, item.armorProp);
    }

    /** Every filled slot holds a marked item, but the one that item is put into. */
    ghost predicate ArmorFilledBut(item: Item)
      reads this`gear, this`weapon, this`secondaryWeapon, this`armor, gear.Keys
    {
      && (weapon != null ==> weapon in gear && weapon.equipped == Wielded && weapon != secondaryWeapon)
      && (secondaryWeapon != null ==> secondaryWeapon in gear && secondaryWeapon.equipped == Wielded)
      && (forall t :: t in armor ==> armor[t].armorType == t && (armor[t] == item || (armor[t] in gear && armor[t].equipped == Worn)))
    }

    /** The bonuses of the item are added and the item is marked. */
    method Equip(item: Item, m: Mark, p: Props)
      requires Marked() && item in items && item.equipped == Loose && m != Loose
      requires InBalance(apply, base, gear) && p == item.Bonus(m)
      modifies this`apply, this`gear, item`equipped
      ensures Marked() && InBalance(apply, base, gear)
      ensures item.equipped == m && gear == old(gear)[item := p]
    {
      hide Get, Plus, Total, InBalance;
      BalanceAdded(apply, base, gear, item, p);
      AddBonuses(p);
      item.equipped := m;
      gear := gear[item := p];
    }

    /** The bonuses of the item are taken off and its mark is removed. */
    method Strip(item: Item, p: Props)
      requires Marked() && item in items && item in gear && p == gear[item]
      requires InBalance(apply, base, gear)
      modifies this`apply, this`gear, item`equipped
      ensures Marked() && InBalance(apply, base, gear)
      ensures item.equipped == Loose && gear == old(gear) - {item}
    {
      hide Get, Minus, Total, InBalance;
      BalanceRemoved(apply, base, gear, item);
      RemoveBonuses(p);
      item.equipped := Loose;
      gear := gear - {item};
    }

    method Unequip(item: Item) returns (taken: bool)
      requires Valid() && item in items
      modifies this`weapon, this`secondaryWeapon, this`armor, this`apply, this`gear, item`equipped
      ensures Valid() && item.equipped == Loose
      ensures taken <==> old(item.equipped) != Loose
      ensures gear == old(gear) - {item}
      ensures weapon == if old(item.equipped) == Wielded && old(weapon) == item then null else old(weapon)
      ensures secondaryWeapon == if old(item.equipped) == Wielded && old(secondaryWeapon) == item then null else old(secondaryWeapon)
      ensures armor == if old(item.equipped) == Worn then old(armor) - {item.armorType} else old(armor)
    {
      if item.equipped == Loose {
        assert gear == gear - {item};
        return false;
      }
      if item.equipped == Wielded {
        PutDown(item);
      } else {
        TakeOff(item);
      }
      return true;
    }

    method PutDown(item: Item)
      requires Valid() && item in items && item.equipped == Wielded
      modifies this`weapon, this`secondaryWeapon, this`apply, this`gear, item`equipped
      ensures Valid() && item.equipped == Loose && gear == old(gear) - {item}
      ensures weapon == if old(weapon) == item then null else old(weapon)
      ensures secondaryWeapon == if old(secondaryWeapon) == item then null else old(secondaryWeapon)
    {
      LetGo(item);
      hide InBalance, Marked, InSlotsBut, SlotsFilled, NotHeld;
      ClearAway(item, if item.weaponProp.Some? then item.weaponProp.value else map[]);
    }

    /** The hand is empty, the item still marked. */
    method LetGo(item: Item)
      requires Valid() && item in items && item.equipped == Wielded
      modifies this`weapon, this`secondaryWeapon
      ensures Marked() && InSlotsBut(item) && SlotsFilled({}) && NotHeld(item) && InBalance(apply, base, gear)
      ensures item in gear && gear[item] == item.Bonus(Wielded)
      ensures weapon == if old(weapon) == item then null else old(weapon)
      ensures secondaryWeapon == if old(secondaryWeapon) == item then null else old(secondaryWeapon)
    {
      hide InBalance;
      if weapon == item {
        weapon := null;
      } else if secondaryWeapon == item {
        secondaryWeapon := null;
      }
    }

    method TakeOff(item: Item)
      requires Valid() && item in items && item.equipped == Worn
      modifies this`armor, this`apply, this`gear, item`equipped
      ensures Valid() && item.equipped == Loose && gear == old(gear) - {item}
      ensures armor == old(armor) - {item.armorType}
    {
      PutOff(item);
      hide InBalance, Marked, InSlotsBut, SlotsFilled, NotHeld;
      ClearAway(item, item.armorProp);
    }

    /** The slot is empty, the item still marked. */
    method PutOff(item: Item)
      requires Valid() && item in items && item.equipped == Worn
      modifies this`armor
      ensures Marked() && InSlotsBut(item) && SlotsFilled({}) && NotHeld(item) && InBalance(apply, base, gear)
      ensures item in gear && gear[item] == item.Bonus(Worn)
      ensures armor == old(armor) - {item.armorType}
    {
      hide InBalance;
      armor := armor - {item.armorType};
    }

    /** An item that is in no slot any more loses its bonuses and its mark. */
    method ClearAway(item: Item, p: Props)
      requires Marked() && InSlotsBut(item) && SlotsFilled({}) && NotHeld(item) && InBalance(apply, base, gear)
      requires item in items && item in gear && p == gear[item]
      modifies this`apply, this`gear, item`equipped
      ensures Valid() && item.equipped == Loose && gear == old(gear) - {item}
    {
      hide InBalance;
      Strip(item, p);
    }

    /** Whether the hands allow an item to be wielded, possibly by switching. */
    predicate HandsAllow(item: Item)
      reads this`weapon, this`secondaryWeapon, this`armor
    {
      if item.twoHanded then weapon == null && secondaryWeapon == null && "shield" !in armor
      else weapon == null
           || (secondaryWeapon == null && "shield" !in armor && (item.secondary || weapon.secondary))
    }

    /** The hands: a two-handed item needs both, and no shield; any other item needs the
        first one, or the second one with no shield, for itself or for the weapon. */
    lemma HandsRule(item: Item)
      ensures item.twoHanded ==> (HandsAllow(item) <==> weapon == null && secondaryWeapon == null && "shield" !in armor)
      ensures !item.twoHanded && weapon == null ==> HandsAllow(item)
      ensures !item.twoHanded && weapon != null ==>
        (HandsAllow(item) <==> secondaryWeapon == null && "shield" !in armor && (item.secondary || weapon.secondary))
    {
    }

    /** wield(); `pending` holds the item a caller is putting into the first hand. */
    method Wield(item: Item, ghost pending: set<Item>) returns (wielded: bool)
      requires ValidBut(pending) && item in items && item !in pending
      requires pending == {} || (item.secondary && weapon != null && pending == {weapon})
      modifies this`weapon, this`secondaryWeapon, this`armor, this`apply, this`gear, items`equipped
      ensures ValidBut(pending) && armor == old(armor)
      ensures wielded <==> old(item.equipped) != Loose || (item.weaponProp.Some? && old(HandsAllow(item)))
      ensures !wielded || old(item.equipped) != Loose ==>
        gear == old(gear) && weapon == old(weapon) && secondaryWeapon == old(secondaryWeapon)
      ensures wielded && old(item.equipped) == Loose ==>
        && item.equipped == Wielded
        && gear == Regripped(item, old(weapon), old(gear))[item := item.weaponProp.value]
        && weapon == (if old(weapon) == null || !item.secondary then item else old(weapon))
        && secondaryWeapon == OtherHand(item, old(weapon), old(secondaryWeapon))
      decreases !item.secondary, 2
    {
      hide InBalance, Total, HandsAllow, Regripped, OtherHand, Marked, InSlots, SlotsFilled;
      if item.equipped != Loose {
        return true;
      }
      if item.weaponProp.None? {
        return false;
      }
      var free := ChooseHand(item, pending);
      if !free {
        return false;
      }
      Grip(item, item.weaponProp.value, pending);
      return true;
    }

    /** The item in the hand is marked and its bonuses count. */
    method Grip(item: Item, p: Props, ghost pending: set<Item>)
      requires ValidBut(pending + {item}) && item !in pending && (weapon == item || secondaryWeapon == item)
      requires item.weaponProp == Some(p)
      modifies this`apply, this`gear, item`equipped
      ensures ValidBut(pending) && item.equipped == Wielded && gear == old(gear)[item := p]
    {
      hide InBalance;
      assert item in pending + {item};
      Equip(item, Wielded, p);
    }

    /** Put the item into a hand if the hands allow it, moving the old weapon over
        where that is necessary and possible. */
    method ChooseHand(item: Item, ghost pending: set<Item>) returns (free: bool)
      requires ValidBut(pending) && item in items && item !in pending && item.equipped == Loose
      requires pending == {} || (item.secondary && weapon != null && pending == {weapon})
      modifies this`weapon, this`secondaryWeapon, this`armor, this`apply, this`gear, items`equipped
      ensures free <==> old(HandsAllow(item))
      ensures armor == old(armor) && item.equipped == Loose
      ensures !free ==> ValidBut(pending) && gear == old(gear) && weapon == old(weapon) && secondaryWeapon == old(secondaryWeapon)
      ensures free ==>
        && ValidBut(pending + {item}) && (weapon == item || secondaryWeapon == item)
        && gear == Regripped(item, old(weapon), old(gear))
        && weapon == (if old(weapon) == null || !item.secondary then item else old(weapon))
        && secondaryWeapon == OtherHand(item, old(weapon), old(secondaryWeapon))
      decreases !item.secondary, 1
    {
      hide InBalance;
      if item.twoHanded {
        if weapon != null || secondaryWeapon != null || "shield" in armor {
          return false;
        }
        weapon := item;
      } else if weapon == null {
        weapon := item;
      } else if secondaryWeapon == null && "shield" !in armor {
        if item.secondary {
          secondaryWeapon := item;
        } else if weapon.secondary {
          SwitchHands(item);
        } else {
          return false;
        }
      } else {
        return false;
      }
      return true;
    }

    method Release(item: Item)
      requires Valid() && item in items && item.equipped == Loose
      modifies this`items
      ensures Valid() && items == old(items) - {item}
    {
      hide InBalance;
      items := items - {item};
    }

    method Receive(item: Item)
      requires Valid() && item.environment == this && item.equipped == Loose
      modifies this`items
      ensures Valid() && items == old(items) + {item}
    {
      hide InBalance;
      items := items + {item};
    }

    /** Take the old weapon out of the first hand and wield it again in the other. */
    method SwitchHands(item: Item)
      requires Valid() && item in items && item.equipped == Loose && !item.secondary
      requires weapon != null && weapon.secondary && secondaryWeapon == null && "shield" !in armor
      modifies this`weapon, this`secondaryWeapon, this`armor, this`apply, this`gear, items`equipped
      ensures ValidBut({item}) && weapon == item && item.equipped == Loose && armor == old(armor)
      ensures gear == Regripped(item, old(weapon), old(gear))
      ensures secondaryWeapon == OtherHand(item, old(weapon), null)
      decreases !item.secondary, 0
    {
      hide InBalance;
      var previous: Item := weapon;
      var _ := Unequip(previous);
      weapon := item;
      var _ := Wield(previous, {item});
    }
  }

  /** The gear when `item` is going to be wielded: the old weapon is put down and
      taken up again in the other hand if it has to make room; one that needs both
      hands stays down. */
  ghost function Regripped(item: Item, previous: Item?, gear: map<Item, Props>): map<Item, Props>
  {
    if previous == null || item.secondary then gear
    else if previous.twoHanded || previous.weaponProp.None? then gear - {previous}
    else (gear - {previous})[previous := previous.weaponProp.value]
  }

  /** What the other hand holds afterwards. */
  ghost function OtherHand(item: Item, previous: Item?, other: Item?): Item?
  {
    if previous == null then other
    else if item.secondary then item
    else if previous.twoHanded || previous.weaponProp.None? then null
    else previous
  }

  /** The weapon that makes room goes to the other hand if it can be wielded there. */
  lemma MakesRoom(item: Item, previous: Item, gear: map<Item, Props>, other: Item?)
    requires previous != item && previous.weaponProp.Some?
    ensures item.secondary ==> OtherHand(item, previous, other) == item && Regripped(item, previous, gear) == gear
    ensures !item.secondary && !previous.twoHanded ==>
      OtherHand(item, previous, other) == previous && Regripped(item, previous, gear) == gear[previous := previous.weaponProp.value]
    ensures !item.secondary && previous.twoHanded ==>
      OtherHand(item, previous, other) == null && previous !in Regripped(item, previous, gear)
    ensures OtherHand(item, null, other) == other && Regripped(item, null, gear) == gear
  {
    if !item.secondary && !previous.twoHanded {
      assert (gear - {previous})[previous := previous.weaponProp.value] == gear[previous := previous.weaponProp.value];
    }
  }

  /** The part of move() that concerns equipment: an equipped item is taken off
      before it leaves, so its bonus never stays behind. */
  method Leave(item: Item, dest: Character?) returns (left: bool)
    requires item.environment == null ==> item.equipped == Loose
    requires item.environment != null ==> item.environment.Valid() && item in item.environment.items
    requires dest != null && dest != item.environment ==>
      dest.Valid() && item !in dest.items && dest.items !! (if item.environment == null then {} else item.environment.items)
    modifies item, Both(item.environment, dest)
    ensures left && item.equipped == Loose && item.environment == dest
    ensures var from := old(item.environment);
      && (from != null ==> from.Valid() && from.gear == old(from.gear) - {item})
      && (from != null && from != dest ==> from.items == old(from.items) - {item})
      && (dest != null ==> dest.Valid() && dest.items == old(dest.items) + {item})
      && (dest != null && dest != from ==> dest.gear == old(dest.gear))
  {
    hide InBalance;
    var from := item.environment;
    if item.equipped != Loose {
      var taken := from.Unequip(item);
      if !taken {
        return false;
      }
    }
    Transfer(item, dest);
    return true;
  }

  ghost function Both(a: Character?, b: Character?): set<Character>
  {
    (if a == null then {} else {a}) + (if b == null then {} else {b})
  }

  /** The item points elsewhere; nobody carries it at this point. */
  method PutInto(item: Item, dest: Character?)
    requires item.equipped == Loose && (item.environment != null ==> item.environment.Valid() && item !in item.environment.items)
    requires dest != null ==> dest.Valid() && item !in dest.items
    modifies item`environment
    ensures item.environment == dest
    ensures old(item.environment) != null ==> old(item.environment).Valid()
    ensures dest != null ==> dest.Valid()
  {
    hide InBalance;
    item.environment := dest;
  }

  /** move_object: the item changes its surroundings. */
  method Transfer(item: Item, dest: Character?)
    requires item.equipped == Loose
    requires item.environment != null ==> item.environment.Valid() && item in item.environment.items
    requires dest != null && dest != item.environment ==> dest.Valid() && item !in dest.items
    modifies item`environment, Both(item.environment, dest)`items
    ensures item.environment == dest
    ensures var from := old(item.environment);
      && (from != null ==> from.Valid())
      && (from != null && from != dest ==> from.items == old(from.items) - {item})
      && (dest != null ==> dest.Valid() && dest.items == old(dest.items) + {item})
  {
    hide InBalance, Character.Marked, Character.InSlots, Character.SlotsFilled;
    if item.environment != null {
      item.environment.Release(item);
    }
    PutInto(item, dest);
    if dest != null {
      dest.Receive(item);
    }
  }
}
