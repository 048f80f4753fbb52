/**
 xditview's table of character names: 256 rows of synonyms and a hash table over them that is built when the table is
 registered.  Looking a name up in the hash table is the same as scanning the rows.
 */
module CharHash {
  import opened Common

  type Name = seq<bv8>

  const HASH_SIZE := 256

  /** Shifting and xor-ing in 32 bits, characters being signed. */
  function HashBits(name: Name): bv32 {
    if |name| == 0 then 0
    else
      var c := name[|name| - 1];
      (HashBits(name[..|name| - 1]) << 1) ^ (if c >= 0x80 then 0xFFFF_FF00 | (c as bv32) else c as bv32)
  }

  /** The bucket of a name: the absolute value of the hash, which for the least number is again that number, and the
      remainder of that is 0. */
  function Bucket(name: Name): (b: nat)
    ensures b < HASH_SIZE
  {
    var h := HashBits(name) as int;
    (if h > 0x8000_0000 then 0x1_0000_0000 - h else h) % HASH_SIZE
  }

  // ---------------------------------------------------------------------------------------
  // Scanning the rows
  // ---------------------------------------------------------------------------------------

  /** The name is among the first k synonyms of a row, before its first null entry. */
  predicate HoldsAmong(row: seq<Option<Name>>, k: nat, name: Name)
    requires k <= |row|
  {
    k > 0 && row[0].Some? && (row[0].value == name || HoldsAmong(row[1..], k - 1, name))
  }

  predicate Holds(row: seq<Option<Name>>, name: Name) {
    HoldsAmong(row, |row|, name)
  }

  /** A row holds the names in front of its first null entry. */
  lemma {:induction false} HoldsIs(row: seq<Option<Name>>, k: nat, name: Name)
    requires k <= |row|
    ensures HoldsAmong(row, k, name) <==>
      exists i :: 0 <= i < k && row[i] == Some(name) && forall j :: 0 <= j < i ==> row[j].Some?
  {
    if k > 0 {
      var rest := row[1..];
      HoldsIs(rest, k - 1, name);
      if i :| 0 <= i < k - 1 && rest[i] == Some(name) && forall j :: 0 <= j < i ==> rest[j].Some? {
        assert row[i + 1] == Some(name);
        assert row[0].Some? ==> forall j :: 0 < j < i + 1 ==> row[j] == rest[j - 1];
      }
      if i :| 0 <= i < k && row[i] == Some(name) && forall j :: 0 <= j < i ==> row[j].Some? {
        if i > 0 {
          assert row[0].Some? && rest[i - 1] == Some(name);
          assert forall j :: 0 <= j < i - 1 ==> rest[j] == row[j + 1];
        } else {
          assert row[0].Some? && row[0].value == name;
        }
      }
    }
  }

  /** The last of the first n rows that holds the name, or -1. */
  function Scan(rows: seq<seq<Option<Name>>>, n: nat, name: Name): (r: int)
    requires n <= |rows|
    ensures -1 <= r < n
    ensures r >= 0 ==> Holds(rows[r], name)
    ensures forall c :: r < c < n ==> !Holds(rows[c], name)
  {
    if n == 0 then -1
    else if Holds(rows[n - 1], name) then n - 1
    else Scan(rows, n - 1, name)
  }

  // ---------------------------------------------------------------------------------------
  // The hash table
  // ---------------------------------------------------------------------------------------

  datatype Entry = Entry(name: Name, position: int)

  /** A record of a bucket's list; it never changes once it is linked. */
  class HashEntry {
    const name: Name
    const position: int
    const next: HashEntry?

    constructor (name: Name, position: int, next: HashEntry?)
      ensures this.name == name && this.position == position && this.next == next
    {
      this.name, this.position, this.next := name, position, next;
    }
  }

  /** The list that starts at h holds the entries es. */
  ghost predicate Linked(h: HashEntry?, es: seq<Entry>)
    decreases |es|
  {
    if h == null then es == []
    else |es| > 0 && es[0] == Entry(h.name, h.position) && Linked(h.next, es[1..])
  }

  /** The position in the first entry with the name, or -1. */
  function Found(es: seq<Entry>, name: Name): int {
    if |es| == 0 then -1
    else if es[0].name == name then es[0].position
    else Found(es[1..], name)
  }

  /** What the lists must say once n rows and the first k synonyms of the next are in. */
  ghost predicate Built(lists: seq<seq<Entry>>, rows: seq<seq<Option<Name>>>, n: nat, k: nat)
    requires n <= |rows| && (n < |rows| ==> k <= |rows[n]|) && (n == |rows| ==> k == 0)
  {
    && |lists| == HASH_SIZE
    && forall name: Name :: Found(lists[Bucket(name)], name) ==
        if k > 0 && HoldsAmong(rows[n], k, name) then n else Scan(rows, n, name)
  }

  lemma {:induction false} OneMore(row: seq<Option<Name>>, k: nat, name: Name)
    requires k < |row| && forall i :: 0 <= i <= k ==> row[i].Some?
    ensures HoldsAmong(row, k + 1, name) <==> HoldsAmong(row, k, name) || row[k].value == name
  {
    if k > 0 {
      OneMore(row[1..], k - 1, name);
    }
  }

  lemma {:induction false} StopsAtNull(row: seq<Option<Name>>, k: nat, name: Name)
    requires k <= |row| && (forall i :: 0 <= i < k ==> row[i].Some?) && (k < |row| ==> row[k].None?)
    ensures Holds(row, name) <==> HoldsAmong(row, k, name)
  {
    if k > 0 {
      StopsAtNull(row[1..], k - 1, name);
    }
  }

  /** The next synonym put in front of its bucket. */
  lemma BuiltOneMore(lists: seq<seq<Entry>>, rows: seq<seq<Option<Name>>>, n: nat, k: nat)
    requires n < |rows| && k < |rows[n]| && Built(lists, rows, n, k)
    requires forall i :: 0 <= i <= k ==> rows[n][i].Some?
    ensures var x := rows[n][k].value;
      Built(lists[Bucket(x) := [Entry(x, n)] + lists[Bucket(x)]], rows, n, k + 1)
  {
    var x := rows[n][k].value;
    var more := lists[Bucket(x) := [Entry(x, n)] + lists[Bucket(x)]];
    forall name: Name
      ensures Found(more[Bucket(name)], name) ==
        if HoldsAmong(rows[n], k + 1, name) then n else Scan(rows, n, name)
    {
      OneMore(rows[n], k, name);
      assert Found(lists[Bucket(name)], name) ==
        if k > 0 && HoldsAmong(rows[n], k, name) then n else Scan(rows, n, name);
      if Bucket(name) == Bucket(x) {
        assert more[Bucket(name)][1..] == lists[Bucket(x)];
      }
    }
  }

  lemma BuiltRow(lists: seq<seq<Entry>>, rows: seq<seq<Option<Name>>>, n: nat, k: nat)
    requires n < |rows| && k <= |rows[n]| && Built(lists, rows, n, k)
    requires (forall i :: 0 <= i < k ==> rows[n][i].Some?) && (k < |rows[n]| ==> rows[n][k].None?)
    ensures Built(lists, rows, n + 1, 0)
  {
    forall name: Name ensures Found(lists[Bucket(name)], name) == Scan(rows, n + 1, name) {
      StopsAtNull(rows[n], k, name);
    }
  }

  class CharNameMap {
    const rows: seq<seq<Option<Name>>>
    const buckets: array<HashEntry?>
    ghost var lists: seq<seq<Entry>>

    ghost predicate Linking()
      reads this, buckets
    {
      && buckets.Length == |lists| == HASH_SIZE
      && forall b :: 0 <= b < HASH_SIZE ==> Linked(buckets[b], lists[b])
    }

    /** The hash table answers for the rows. */
    ghost predicate Hashed()
      reads this, buckets
    {
      Linking() && Built(lists, rows, |rows|, 0)
    }

    constructor (rows: seq<seq<Option<Name>>>)
      ensures this.rows == rows && Linking()
    {
      this.rows := rows;
      buckets := new HashEntry?[HASH_SIZE](_ => null);
      lists := seq(HASH_SIZE, _ => []);
    }

    /** Whatever the buckets held before, afterwards they hold the rows' names. */
    method ComputeHash()
      requires buckets.Length == HASH_SIZE
      modifies this`lists, buckets
      ensures Hashed()
    {
      for b := 0 to HASH_SIZE
        invariant forall i :: 0 <= i < b ==> buckets[i] == null
      {
        buckets[b] := null;
      }
      lists := seq(HASH_SIZE, _ => []);
      for c := 0 to |rows|
        invariant Linking() && Built(lists, rows, c, 0)
      {
        var s := 0;
        while s < |rows[c]|
          invariant s <= |rows[c]| && Linking() && Built(lists, rows, c, s)
          invariant forall i :: 0 <= i < s ==> rows[c][i].Some?
        {
          if rows[c][s].None? {
            break;
          }
          AddSynonym(c, s);
          s := s + 1;
        }
        BuiltRow(lists, rows, c, s);
      }
    }

    method AddSynonym(c: nat, s: nat)
      requires Linking() && c < |rows| && s < |rows[c]| && Built(lists, rows, c, s)
      requires forall i :: 0 <= i <= s ==> rows[c][i].Some?
      modifies this`lists, buckets
      ensures Linking() && Built(lists, rows, c, s + 1)
    {
      var x := rows[c][s].value;
      var b := Bucket(x);
      BuiltOneMore(lists, rows, c, s);
      var h := new HashEntry(x, c, buckets[b]);
      assert ([Entry(x, c)] + lists[b])[1..] == lists[b];
      buckets[b] := h;
      lists := lists[b := [Entry(x, c)] + lists[b]];
    }

    /** The index of a name is the greatest position whose row holds it, or -1. */
    method CharIndex(name: Name) returns (r: int)
      requires Hashed()
      ensures r == Scan(rows, |rows|, name)
    {
      var b := Bucket(name);
      var h := buckets[b];
      ghost var es := lists[b];
      assert Found(lists[b], name) == Scan(rows, |rows|, name);
      while h != null
        invariant Linked(h, es) && Found(es, name) == Scan(rows, |rows|, name)
        decreases |es|
      {
        if h.name == name {
          return h.position;
        }
        h, es := h.next, es[1..];
      }
      return -1;
    }
  }
}
