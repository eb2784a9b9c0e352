/** The string pool: each distinct string once, NUL-terminated, one after the other. */
module StringPools {
  import opened Wrappers
  import opened MetaModel
  import opened MetaBlock

  /** `data` holds `s` and its NUL at `off`. */
  ghost predicate HoldsAt(data: string, off: nat, s: string) {
    off + |s| + 1 <= |data| && data[off..off + |s| + 1] == s + ['\0']
  }

  class StringPool {
    var mData: string
    var mOffsets: map<NulFree, nat>

    ghost predicate Valid()
      reads this
    {
      && "" in mOffsets && mOffsets[""] == 0
      && forall s :: s in mOffsets ==> HoldsAt(mData, mOffsets[s], s)
    }

    constructor ()
      ensures Valid()
      ensures mData == ['\0'] && mOffsets == map["" := 0]
    {
      mData := ['\0'];
      mOffsets := map["" := 0];
    }

    /** A null string and a string that is there already change nothing. */
    method Add(s: CString)
      requires Valid()
      modifies this
      ensures Valid()
      ensures s.Null? || s.chars in old(mOffsets) ==> mData == old(mData) && mOffsets == old(mOffsets)
      ensures s.Str? && s.chars !in old(mOffsets) ==>
        mData == old(mData) + s.chars + ['\0'] && mOffsets == old(mOffsets)[s.chars := |old(mData)|]
      ensures old(mOffsets.Keys) <= mOffsets.Keys && (s.Str? ==> s.chars in mOffsets.Keys)
    {
      if s.Null? || s.chars in mOffsets {
        return;
      }
      var offset := |mData|;
      mData := mData + s.chars + ['\0'];
      mOffsets := mOffsets[s.chars := offset];
      assert mData[offset..offset + |s.chars| + 1] == s.chars + ['\0'];
      forall t | t in old(mOffsets)
        ensures HoldsAt(mData, mOffsets[t], t)
      {
        if t != s.chars {
          var off := mOffsets[t];
          assert mData[off..off + |t| + 1] == old(mData)[off..off + |t| + 1];
        }
      }
    }

    /** An unknown string gets the offset 0, where the empty string is. */
    function FindOffset(s: CString): nat
      reads this
    {
      if s.Str? && s.chars in mOffsets then mOffsets[s.chars] else 0
    }
  }

  /** The pool data has been copied to `ptr`. */
  ghost predicate Placed(b: Block, ptr: nat, data: string) {
    b.Has(ptr, |data|) && forall i :: ptr - b.base <= i < ptr - b.base + |data| ==> b.cells[i] == Chr(data[i - (ptr - b.base)])
  }

  lemma {:induction false} PlacedReads(b: Block, ptr: nat, data: string, off: nat, s: string)
    requires Placed(b, ptr, data) && HoldsAt(data, off, s) && '\0' !in s
    ensures b.ReadText(ptr + off) == Some(s)
    decreases |s|
  {
    assert data[off] == data[off..off + |s| + 1][0];
    assert b.At(ptr + off) == Chr(data[off]);
    if s != [] {
      assert s[0] in s;
      assert data[off + 1..off + 1 + |s[1..]| + 1] == data[off..off + |s| + 1][1..] == s[1..] + ['\0'];
      PlacedReads(b, ptr, data, off + 1, s[1..]);
      assert s == [s[0]] + s[1..];
    }
  }

  lemma PlacedKeeps(b: Block, c: Block, ptr: nat, data: string)
    requires Extends(b, c) && Placed(b, ptr, data)
    ensures Placed(c, ptr, data)
  {
  }
}
