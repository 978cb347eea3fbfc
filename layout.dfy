/**
  How the body of an AWI binary orbit file is laid out once the header is
  known: the number of records (`_get_n_records`), where each record sits
  and what it holds (`_parse_content`), and which column each configured
  parameter name is bound to (`_construct_datagroups`).

  A record is one 8-byte value per active data group, so with k active
  groups records are 8k bytes long and follow each other from byte 106 on.
*/
module RecordLayout {
  import opened Outcomes
  import opened Bytes
  import opened BinaryHeader

  /** The length of one record with k active data groups. */
  function RecordSize(k: nat): nat {
    WORD_SIZE * k
  }

  /** The byte offset of record r. */
  function RecordOffset(r: nat, k: nat): nat {
    HEADER_SIZE + r * RecordSize(k)
  }

  /**
    `(file_size - 106) / (n_datagroups * 8)` under Python 2 integer division,
    which floors; no active group is a division by zero.
  */
  function RecordCount(fileSize: int, k: nat): (r: Result<int>)
    ensures r.Err? <==> k == 0
    ensures r.Err? ==> r.error == NoActiveDatagroups
    ensures r.Ok? && fileSize >= HEADER_SIZE ==> r.value >= 0
  {
    if k == 0 then Err(NoActiveDatagroups)
    else Ok((fileSize - HEADER_SIZE) / RecordSize(k))
  }

  /**
    The counted records fit after the header and one more would not: the
    truncated tail, shorter than a record, is dropped.
  */
  lemma RecordCountBrackets(fileSize: int, k: nat)
    requires k > 0
    ensures var n := RecordCount(fileSize, k).value;
      HEADER_SIZE + n * RecordSize(k) <= fileSize < HEADER_SIZE + (n + 1) * RecordSize(k)
  {
    var s := RecordSize(k);
    var n := (fileSize - HEADER_SIZE) / s;
    assert (n + 1) * s == n * s + s;
  }

  /** The floor bracketing determines the record count: nothing else satisfies it. */
  lemma RecordCountIsUnique(fileSize: int, k: nat, n: int)
    requires k > 0
    requires HEADER_SIZE + n * RecordSize(k) <= fileSize < HEADER_SIZE + (n + 1) * RecordSize(k)
    ensures RecordCount(fileSize, k) == Ok(n)
  {
    var s := RecordSize(k);
    var q := RecordCount(fileSize, k).value;
    RecordCountBrackets(fileSize, k);
    FactorLess(q, n + 1, s);
    FactorLess(n, q + 1, s);
  }

  /** A product with a positive factor keeps the order of the other factor. */
  lemma FactorLess(a: int, b: int, s: int)
    requires s > 0 && a * s < b * s
    ensures a < b
  {
    if a >= b {
      MultiplyMonotone(b, a, s);
    }
  }

  lemma MultiplyMonotone(a: int, b: int, s: nat)
    requires a <= b
    ensures a * s <= b * s
  {
  }

  /** Every one of the counted records lies wholly inside the file. */
  lemma RecordsFit(fileSize: int, k: nat, r: nat)
    requires k > 0
    requires r < RecordCount(fileSize, k).value
    ensures RecordOffset(r, k) + RecordSize(k) <= fileSize
  {
    var n := RecordCount(fileSize, k).value;
    RecordCountBrackets(fileSize, k);
    MultiplyMonotone(r + 1, n, RecordSize(k));
  }

  /** `struct.unpack('<%gd' % k, record)` for record r: k words, one per active group. */
  function Record(file: seq<Byte>, r: nat, k: nat): (row: seq<Word64>)
    requires RecordOffset(r, k) + RecordSize(k) <= |file|
    ensures |row| == k
    ensures forall c :: 0 <= c < k ==> row[c] == Word64At(file, RecordOffset(r, k) + WORD_SIZE * c)
  {
    var off, size := RecordOffset(r, k), RecordSize(k);
    var bytes := file[off .. off + size];
    assert |bytes| == WORD_SIZE * k && |bytes| % WORD_SIZE == 0 && |bytes| / WORD_SIZE == k;
    var row := DecodeWords(bytes);
    forall c | 0 <= c < k ensures row[c] == Word64At(file, off + WORD_SIZE * c) {
      WordInSlice(file, off, size, WORD_SIZE * c);
    }
    row
  }

  /** A word read from a slice of a file is the word at the same place in the file. */
  lemma WordInSlice(file: seq<Byte>, off: nat, len: nat, i: nat)
    requires off + len <= |file| && i + WORD_SIZE <= len
    ensures Word64At(file[off .. off + len], i) == Word64At(file, off + i)
  {
    var inner, outer := file[off .. off + len][i .. i + WORD_SIZE], file[off + i .. off + i + WORD_SIZE];
    assert |inner| == |outer| == WORD_SIZE;
    assert forall j :: 0 <= j < WORD_SIZE ==> inner[j] == file[off + i + j] == outer[j];
    assert inner == outer;
  }

  /** The value of data group c in record r, for one of the counted records. */
  function RecordValue(file: seq<Byte>, k: nat, r: nat, c: nat): (w: Word64)
    requires k > 0 && r < RecordCount(|file|, k).value && c < k
    ensures RecordOffset(r, k) + WORD_SIZE * (c + 1) <= |file|
    ensures w == Word64At(file, RecordOffset(r, k) + WORD_SIZE * c)
  {
    RecordsFit(|file|, k, r);
    Record(file, r, k)[c]
  }

  // ---------------------------------------------------------------------
  // Binding parameter names to columns

  /** Every active slot names one of the configured keys. */
  predicate KeysCover(keys: seq<string>, active: seq<nat>) {
    forall i :: 0 <= i < |active| ==> active[i] < |keys|
  }

  /** The first active slot past the end of the key list: the one the binding loop fails on. */
  function FirstUncoveredSlot(keys: seq<string>, active: seq<nat>): (i: nat)
    requires !KeysCover(keys, active)
    ensures i < |active| && active[i] >= |keys|
    ensures KeysCover(keys, active[..i])
  {
    if active[0] >= |keys| then 0
    else
      var i := 1 + FirstUncoveredSlot(keys, active[1..]);
      assert forall j :: 1 <= j < i ==> active[..i][j] == active[1..][..i - 1][j - 1];
      i
  }

  /** No other slot is both uncovered and preceded by covered slots only. */
  lemma FirstUncoveredSlotIsUnique(keys: seq<string>, active: seq<nat>, i: nat)
    requires i < |active| && active[i] >= |keys| && KeysCover(keys, active[..i])
    ensures FirstUncoveredSlot(keys, active) == i
  {
    var j := FirstUncoveredSlot(keys, active);
    assert forall x :: 0 <= x < i ==> active[..i][x] == active[x];
    assert forall x :: 0 <= x < j ==> active[..j][x] == active[x];
  }

  /**
    The dictionary `registered_datagroups` after the loop
    `registered[keys[active[i]]] = i` for i = 0, 1, ...: a later write to
    the same name replaces an earlier one.
  */
  function Register(keys: seq<string>, active: seq<nat>): (m: map<string, nat>)
    requires KeysCover(keys, active)
    ensures m.Keys == set i | 0 <= i < |active| :: keys[active[i]]
    ensures forall t :: t in m ==> m[t] < |active| && keys[active[m[t]]] == t
  {
    if |active| == 0 then map[]
    else
      var last := |active| - 1;
      Register(keys, active[..last])[keys[active[last]] := last]
  }

  /** One more turn of the binding loop: the next covered slot binds its key to its column. */
  lemma RegisterExtend(keys: seq<string>, active: seq<nat>, i: nat)
    requires i < |active| && active[i] < |keys| && KeysCover(keys, active[..i])
    ensures KeysCover(keys, active[..i + 1])
    ensures Register(keys, active[..i + 1]) == Register(keys, active[..i])[keys[active[i]] := i]
  {
    var next := active[..i + 1];
    assert next[..i] == active[..i];
    assert forall j :: 0 <= j < i ==> next[j] == active[..i][j];
  }

  /** A name is bound to the last slot that carries it. */
  lemma {:induction false} RegisterKeepsLastSlot(keys: seq<string>, active: seq<nat>, i: nat)
    requires KeysCover(keys, active)
    requires i < |active|
    ensures keys[active[i]] in Register(keys, active)
    ensures i <= Register(keys, active)[keys[active[i]]]
  {
    var last := |active| - 1;
    var prefix := active[..last];
    assert KeysCover(keys, prefix) by {
      assert forall j :: 0 <= j < last ==> prefix[j] == active[j];
    }
    var m := Register(keys, prefix);
    assert Register(keys, active) == m[keys[active[last]] := last];
    if i < last && keys[active[last]] != keys[active[i]] {
      assert prefix[i] == active[i];
      RegisterKeepsLastSlot(keys, prefix, i);
    }
  }

  predicate Distinct(keys: seq<string>) {
    forall i, j :: 0 <= i < j < |keys| ==> keys[i] != keys[j]
  }

  predicate StrictlyIncreasing(s: seq<nat>) {
    forall i, j :: 0 <= i < j < |s| ==> s[i] < s[j]
  }

  /**
    With distinct configuration keys (they come from a JSON object) and
    increasing slots, each name is bound to exactly the column of its slot.
  */
  lemma RegisterBindsEachSlot(keys: seq<string>, active: seq<nat>, i: nat)
    requires KeysCover(keys, active) && Distinct(keys) && StrictlyIncreasing(active)
    requires i < |active|
    ensures keys[active[i]] in Register(keys, active)
    ensures Register(keys, active)[keys[active[i]]] == i
  {
    var m := Register(keys, active);
    var j := m[keys[active[i]]];
    assert keys[active[j]] == keys[active[i]];
  }
}
