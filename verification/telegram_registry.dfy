/** TelegramRegistry: definitions by number, filled on first use. */
module TelegramRegistry {
  import opened Prelude
  import opened Telegrams
  import opened TelegramCatalog

  class TelegramRegistry {
    var definitions: Registry
    var initialized: bool

    ghost predicate Valid()
      reads this
    {
      KeyedByNumber(definitions) && (!initialized ==> definitions == map[])
    }

    /** What callers see. Filling on first use is not visible here. */
    ghost function Contents(): Registry
      reads this
    {
      if initialized then definitions else Catalog()
    }

    constructor ()
      ensures Valid() && Contents() == Catalog()
    {
      definitions, initialized := map[], false;
    }

    method Init()
      requires Valid()
      modifies this
      ensures Valid() && initialized && Contents() == old(Contents())
    {
      if initialized { return; }
      AddAll(PLC_TO_SMC);
      AddAll(SMC_TO_PLC);
      initialized := true;
    }

    method AddAll(list: seq<Definition>)
      requires KeyedByNumber(definitions)
      modifies this`definitions
      ensures definitions == Filed(old(definitions), list)
      ensures KeyedByNumber(definitions)
    {
      assert list[0..] == list;
      for i := 0 to |list|
        invariant Filed(definitions, list[i..]) == Filed(old(definitions), list)
        invariant KeyedByNumber(definitions)
      {
        assert list[i..][1..] == list[i + 1..];
        definitions := definitions[list[i].telegramNo := list[i]];
      }
      assert list[|list|..] == [];
    }

    method Get(telegramNo: int) returns (r: Option<Definition>)
      requires Valid()
      modifies this
      ensures Valid() && Contents() == old(Contents())
      ensures r == if telegramNo in Contents() then Some(Contents()[telegramNo]) else None
      ensures r.Some? ==> r.value.telegramNo == telegramNo
    {
      Init();
      r := if telegramNo in definitions then Some(definitions[telegramNo]) else None;
    }

    method Register(definition: Definition)
      requires Valid()
      modifies this
      ensures Valid() && Contents() == old(Contents())[definition.telegramNo := definition]
    {
      Init();
      definitions := definitions[definition.telegramNo := definition];
    }
  }
}
