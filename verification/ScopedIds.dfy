/**
  `generateScopedId`: prefix, microseconds and a process-wide sequence number,
  joined by underscores.
 */
module ScopedIds {
  import opened Basics

  const UNDERSCORE: Byte := 95

  function Decimal(n: nat): (t: Text)
    ensures t != []
    ensures forall i | 0 <= i < |t| :: 48 <= t[i] <= 57
  {
    if n < 10 then [48 + n] else Decimal(n / 10) + [48 + n % 10]
  }

  /** `std::to_string` of a signed number. */
  function Number(n: int): Text {
    if n < 0 then [45] + Decimal(-n) else Decimal(n)
  }

  /** `std::stoll` of it gives the number back. */
  lemma NumberReads(n: int)
    ensures n >= 0 ==> (forall i | 0 <= i < |Number(n)| :: 48 <= Number(n)[i] <= 57) && Digits(Number(n)) == n
    ensures n < 0 ==> Number(n)[0] == 45 && (forall i | 1 <= i < |Number(n)| :: 48 <= Number(n)[i] <= 57) && Digits(Number(n)[1..]) == -n
  {
    DigitsOfDecimal(if n < 0 then -n else n);
    if n < 0 { assert Number(n)[1..] == Decimal(-n); }
  }

  function ScopedId(prefix: Text, micros: int, sequence: nat): (id: Text)
    ensures prefix + [UNDERSCORE] <= id
  {
    prefix + [UNDERSCORE] + Number(micros) + [UNDERSCORE] + Decimal(sequence)
  }

  function Digits(t: Text): nat
    requires forall i | 0 <= i < |t| :: 48 <= t[i] <= 57
  {
    if t == [] then 0 else 10 * Digits(t[..|t| - 1]) + t[|t| - 1] - 48
  }

  lemma {:induction false} DigitsOfDecimal(n: nat)
    ensures Digits(Decimal(n)) == n
  {
    if n < 10 {
      assert Decimal(n)[..0] == [];
    } else {
      DigitsOfDecimal(n / 10);
      assert Decimal(n)[..|Decimal(n)| - 1] == Decimal(n / 10);
    }
  }

  /** What follows the last underscore. */
  function Suffix(t: Text): Text {
    if t == [] || t[|t| - 1] == UNDERSCORE then [] else Suffix(t[..|t| - 1]) + [t[|t| - 1]]
  }

  lemma {:induction false} SuffixAfter(head: Text, tail: Text)
    requires UNDERSCORE !in tail
    ensures Suffix(head + [UNDERSCORE] + tail) == tail
  {
    var t := head + [UNDERSCORE] + tail;
    if tail == [] {
      assert t[|t| - 1] == UNDERSCORE;
    } else {
      var shorter := tail[..|tail| - 1];
      assert t[..|t| - 1] == head + [UNDERSCORE] + shorter;
      SuffixAfter(head, shorter);
      assert shorter + [tail[|tail| - 1]] == tail;
    }
  }

  /** Whatever prefix and clock do, ids with different sequence numbers differ. */
  lemma ScopedIdsDiffer(p: Text, m: int, s: nat, p': Text, m': int, s': nat)
    requires s != s'
    ensures ScopedId(p, m, s) != ScopedId(p', m', s')
  {
    assert ScopedId(p, m, s) == (p + [UNDERSCORE] + Number(m)) + [UNDERSCORE] + Decimal(s);
    assert ScopedId(p', m', s') == (p' + [UNDERSCORE] + Number(m')) + [UNDERSCORE] + Decimal(s');
    SuffixAfter(p + [UNDERSCORE] + Number(m), Decimal(s));
    SuffixAfter(p' + [UNDERSCORE] + Number(m'), Decimal(s'));
    DigitsOfDecimal(s);
    DigitsOfDecimal(s');
  }

  /** The static 64-bit counter of one source file, with the ids it has issued. */
  class IdGenerator {
    var sequence: nat
    ghost var issued: seq<Text>

    ghost predicate Valid()
      reads this
    {
      && sequence == |issued| % TWO_64
      && Issued(issued)
    }

    constructor ()
      ensures Valid() && issued == []
    {
      sequence, issued := 0, [];
    }

    method Generate(prefix: Text, micros: int) returns (id: Text)
      requires Valid()
      modifies this
      ensures Valid() && issued == old(issued) + [id]
      ensures id == ScopedId(prefix, micros, (old(sequence) + 1) % TWO_64)
    {
      NextNumber(|issued|);
      sequence := (sequence + 1) % TWO_64;
      id := ScopedId(prefix, micros, sequence);
      IsNumbered(prefix, micros, |issued| + 1);
      IssuedOneMore(issued, id);
      issued := issued + [id];
    }
  }

  lemma IssuedOneMore(ids: seq<Text>, id: Text)
    requires Issued(ids) && Numbered(id, |ids| + 1)
    ensures Issued(ids + [id])
  {
    forall i | 0 <= i < |ids + [id]|
      ensures Numbered((ids + [id])[i], i + 1)
    {
      if i < |ids| { assert (ids + [id])[i] == ids[i]; }
    }
  }

  lemma NextNumber(n: nat)
    ensures (n % TWO_64 + 1) % TWO_64 == (n + 1) % TWO_64
  {
  }

  lemma NumbersDiffer(m: nat, n: nat)
    requires m < n && n - m < TWO_64
    ensures m % TWO_64 != n % TWO_64
  {
  }

  lemma IsNumbered(prefix: Text, micros: int, n: nat)
    ensures Numbered(ScopedId(prefix, micros, n % TWO_64), n)
  {
  }

  ghost predicate Numbered(id: Text, n: nat) {
    exists p, m :: id == ScopedId(p, m, n % TWO_64)
  }

  ghost predicate Issued(ids: seq<Text>) {
    forall i | 0 <= i < |ids| :: Numbered(ids[i], i + 1)
  }

  /** Ids of one generator are pairwise distinct until the 64-bit counter comes round. */
  lemma IssuedIdsDiffer(ids: seq<Text>, i: nat, j: nat)
    requires Issued(ids) && i < j < |ids| && j - i < TWO_64
    ensures ids[i] != ids[j]
  {
    NumberedDiffer(ids[i], i + 1, ids[j], j + 1);
  }

  lemma NumberedNotEmpty(id: Text, n: nat)
    requires Numbered(id, n)
    ensures id != []
  {
    var p, micros :| id == ScopedId(p, micros, n % TWO_64);
    assert |ScopedId(p, micros, n % TWO_64)| > 0;
  }

  lemma NumberedDiffer(a: Text, m: nat, b: Text, n: nat)
    requires Numbered(a, m) && Numbered(b, n) && m < n && n - m < TWO_64
    ensures a != b
  {
    var p, micros :| a == ScopedId(p, micros, m % TWO_64);
    var q, later :| b == ScopedId(q, later, n % TWO_64);
    NumbersDiffer(m, n);
    ScopedIdsDiffer(p, micros, m % TWO_64, q, later, n % TWO_64);
  }
}
