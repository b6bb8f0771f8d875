/** The three mark bits the agent owns, and the operations its rules use on them. */
module MarkBits {
  const MARK_MASK: bv32 := 0x70000
  const KEEP_FOREIGN: bv32 := 0xfff8ffff

  /** Replaces the agent's own mark bits and keeps everyone else's. */
  function WithMark(value: bv32, mark: bv32): bv32 {
    (value & KEEP_FOREIGN) | mark
  }

  lemma OwnBits(value: bv32, mark: bv32)
    requires mark & MARK_MASK == mark
    ensures WithMark(value, mark) & MARK_MASK == mark
  {
  }

  lemma ForeignBits(value: bv32, mark: bv32)
    requires mark & MARK_MASK == mark
    ensures WithMark(value, mark) & KEEP_FOREIGN == value & KEEP_FOREIGN
  {
  }

  lemma ClearedBits(value: bv32)
    ensures (value & KEEP_FOREIGN) & MARK_MASK == 0
  {
  }

  lemma MarkAfterClear(value: bv32, mark: bv32)
    ensures WithMark(value & KEEP_FOREIGN, mark) == WithMark(value, mark)
  {
    assert (value & KEEP_FOREIGN) & KEEP_FOREIGN == value & KEEP_FOREIGN;
  }

  lemma SameForeignBits(left: bv32, right: bv32, mark: bv32)
    requires left & KEEP_FOREIGN == right & KEEP_FOREIGN
    ensures WithMark(left, mark) == WithMark(right, mark)
  {
  }

  lemma MarkTwice(value: bv32, first: bv32, second: bv32)
    requires first & MARK_MASK == first
    ensures WithMark(WithMark(value, first), second) == WithMark(value, second)
  {
    var once := WithMark(value, first);
    assert once & KEEP_FOREIGN == value & KEEP_FOREIGN by {
      ForeignBits(value, first);
    }
    SameForeignBits(once, value, second);
  }
}
