/** The byte storage behind the View File dialog's hex view: the file's bytes are
    moved in once when the storage is built and only read afterwards, so the storage
    is a value and its two queries are functions of it. */
module ViewFile {

  datatype Storage = Storage(bytes: seq<bv8>)
  {
    /** Storage::size: the number of bytes handed over at construction. */
    function Size(): nat
    {
      |bytes|
    }

    /** Storage::getData: the requested window, with the position clamped to the end
        of the bytes and the length clamped to what remains after the position. */
    function GetData(position: nat, length: nat): (r: seq<bv8>)
      ensures |r| <= length && Min(position, |bytes|) + |r| <= |bytes|
      ensures position >= |bytes| ==> r == []
      ensures position < |bytes| ==> r == bytes[position..position + |r|]
      ensures |r| == length || Min(position, |bytes|) + |r| == |bytes|
    {
      var start := Min(position, |bytes|);
      var count := Min(length, |bytes| - start);
      bytes[start..start + count]
    }
  }

  function Min(a: nat, b: nat): (r: nat)
    ensures r <= a && r <= b && (r == a || r == b)
  {
    if a <= b then a else b
  }

  /** Reading the whole size from the start yields every byte. */
  lemma WholeContents(s: Storage)
    ensures s.GetData(0, s.Size()) == s.bytes
  {
  }

  /** Two adjacent windows read back to back equal the one window spanning both. */
  lemma AdjacentWindows(s: Storage, position: nat, a: nat, b: nat)
    ensures s.GetData(position, a) + s.GetData(position + a, b) == s.GetData(position, a + b)
  {
    var n := |s.bytes|;
    if position + a <= n {
      var split := s.bytes[position..];
      assert s.GetData(position, a) == split[..a];
      assert s.GetData(position + a, b) == split[a..Min(a + b, |split|)];
      assert s.GetData(position, a + b) == split[..Min(a + b, |split|)];
      assert split[..a] + split[a..Min(a + b, |split|)] == split[..Min(a + b, |split|)];
    }
  }

  /** Reading the storage in pages of a fixed size, starting at `position`, and
      concatenating the pages, yields every byte from `position` on. */
  function Pages(s: Storage, position: nat, pageSize: nat): seq<bv8>
    requires pageSize > 0
    decreases |s.bytes| - position
  {
    if position >= |s.bytes| then []
    else s.GetData(position, pageSize) + Pages(s, position + pageSize, pageSize)
  }

  lemma {:induction false} PagesAreTheRest(s: Storage, position: nat, pageSize: nat)
    requires pageSize > 0
    ensures position <= |s.bytes| ==> Pages(s, position, pageSize) == s.bytes[position..]
    ensures position >= |s.bytes| ==> Pages(s, position, pageSize) == []
    decreases |s.bytes| - position
  {
    if position < |s.bytes| {
      PagesAreTheRest(s, position + pageSize, pageSize);
      AdjacentWindows(s, position, pageSize, |s.bytes|);
      assert s.GetData(position, pageSize + |s.bytes|) == s.bytes[position..];
      if position + pageSize >= |s.bytes| {
        assert s.GetData(position + pageSize, |s.bytes|) == [];
      } else {
        assert s.GetData(position + pageSize, |s.bytes|) == s.bytes[position + pageSize..];
      }
    }
  }
}
