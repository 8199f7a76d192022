/** The plain record classes of a CTQ tree: an `Item` (weight, text, note),
    the CTQ, driver and user-need levels built on it, and the tree of needs.
    The source derives each level from `Item`; here each level holds its
    `Item` part as a field, created with it. */
module Items {

  /** The 16-bit unsigned weight of an item. */
  newtype UShort = x: int | 0 <= x < 0x1_0000

  class Item {
    var weight: UShort
    var text: string
    var note: string

    /** A fresh item has weight 0 and empty text and note. */
    constructor ()
      ensures weight == 0 && text == "" && note == ""
    {
      weight, text, note := 0, "", "";
    }

    /** A copy holding the same three values. */
    constructor Copy(other: Item)
      ensures weight == other.weight && text == other.text && note == other.note
    {
      weight, text, note := other.weight, other.text, other.note;
    }

    method SetWeight(w: UShort)
      modifies this`weight
      ensures weight == w
      ensures text == old(text) && note == old(note)
    {
      weight := w;
    }

    method GetWeight() returns (w: UShort)
      ensures w == weight
    {
      w := weight;
    }

    method SetText(t: string)
      modifies this`text
      ensures text == t
      ensures weight == old(weight) && note == old(note)
    {
      text := t;
    }

    method GetText() returns (t: string)
      ensures t == text
    {
      t := text;
    }

    method SetNote(t: string)
      modifies this`note
      ensures note == t
      ensures weight == old(weight) && text == old(text)
    {
      note := t;
    }

    method GetNote() returns (t: string)
      ensures t == note
    {
      t := note;
    }
  }

  /** A critical-to-quality item, the leaf level of the tree. */
  class Ctq {
    const item: Item

    constructor ()
      ensures fresh(item) && item.weight == 0 && item.text == "" && item.note == ""
    {
      item := new Item();
    }
  }

  /** A driver: an item with the CTQs it leads to, in the order they were added.
      The list holds shared handles, so a CTQ is never copied. */
  class Driver {
    const item: Item
    var ctqs: seq<Ctq>

    constructor ()
      ensures fresh(item) && item.weight == 0 && item.text == "" && item.note == ""
      ensures ctqs == []
    {
      item := new Item();
      ctqs := [];
    }

    /** Append `ctq` at the end; the CTQs already there keep their positions. */
    method Add(ctq: Ctq)
      modifies this`ctqs
      ensures ctqs == old(ctqs) + [ctq]
    {
      ctqs := ctqs + [ctq];
    }

    /** The `i`-th CTQ added (the source does not check the bound). */
    method GetCtq(i: nat) returns (c: Ctq)
      requires i < |ctqs|
      ensures c == ctqs[i]
    {
      c := ctqs[i];
    }

    method GetNrOfCtqs() returns (n: nat)
      ensures n == |ctqs|
    {
      n := |ctqs|;
    }
  }

  /** A user need: an item with its drivers, in the order they were added. */
  class UserNeed {
    const item: Item
    var drivers: seq<Driver>

    constructor ()
      ensures fresh(item) && item.weight == 0 && item.text == "" && item.note == ""
      ensures drivers == []
    {
      item := new Item();
      drivers := [];
    }

    /** A copy of `other`: its own item with the same values, and the same
        driver handles. */
    constructor Copy(other: UserNeed)
      ensures fresh(item)
      ensures item.weight == other.item.weight && item.text == other.item.text
              && item.note == other.item.note
      ensures drivers == other.drivers
    {
      item := new Item.Copy(other.item);
      drivers := other.drivers;
    }

    /** Append `driver` at the end; the drivers already there keep their positions. */
    method Add(driver: Driver)
      modifies this`drivers
      ensures drivers == old(drivers) + [driver]
    {
      drivers := drivers + [driver];
    }

    /** The `i`-th driver added, as the shared handle itself (the source does
        not check the bound). */
    method GetDriver(i: nat) returns (d: Driver)
      requires i < |drivers|
      ensures d == drivers[i]
    {
      d := drivers[i];
    }

    method GetNrOfDrivers() returns (n: nat)
      ensures n == |drivers|
    {
      n := |drivers|;
    }
  }

  /** The whole tree: the user needs in the order they were added. A need is
      passed by value, so the tree keeps its own copy. */
  class CtqTree {
    var needs: seq<UserNeed>

    constructor ()
      ensures needs == []
    {
      needs := [];
    }

    /** Append a copy of `need` at the end; the needs already there keep their
        positions. */
    method Add(need: UserNeed)
      modifies this`needs
      ensures |needs| == |old(needs)| + 1 && needs[..|old(needs)|] == old(needs)
      ensures var added := needs[|needs| - 1];
              fresh(added) && fresh(added.item)
              && added.item.weight == need.item.weight && added.item.text == need.item.text
              && added.item.note == need.item.note && added.drivers == need.drivers
    {
      var copy := new UserNeed.Copy(need);
      needs := needs + [copy];
    }

    /** The `i`-th need added; the source asserts the bound. */
    method GetNeed(i: nat) returns (n: UserNeed)
      requires i < |needs|
      ensures n == needs[i]
    {
      n := needs[i];
    }

    method GetNrOfNeeds() returns (n: nat)
      ensures n == |needs|
    {
      n := |needs|;
    }
  }
}
