/**
 * The map from native pcs to source positions (SrcMap in compiler/compiled_method.h): entries are
 * pushed in order of their addresses, and those that change nothing are dropped.
 */
module SrcMap {
  import opened OatTypes

  datatype Elem = Elem(from: nat, to: int)

  ghost predicate Ascending(elems: seq<Elem>) {
    forall i, j :: 0 <= i < j < |elems| ==> elems[i].from <= elems[j].from
  }

  /** The uncompressed map: the last of the first n entries at or before an address. */
  function Lookup(elems: seq<Elem>, n: nat, from: nat): Option<int>
    requires n <= |elems|
  {
    if n == 0 then None
    else if elems[n - 1].from <= from then Some(elems[n - 1].to)
    else Lookup(elems, n - 1, from)
  }

  /** The entries that are kept of the first n. */
  function Compressed(pushed: seq<Elem>, n: nat): seq<Elem>
    requires n <= |pushed|
  {
    if n == 0 then [] else
    var before, elem := Compressed(pushed, n - 1), pushed[n - 1];
    if before != [] && before[|before| - 1].to == elem.to then before else before + [elem]
  }

  /** Find on a vector: the first entry at an address, or the last one before it. */
  function Found(elems: seq<Elem>, at: nat, from: nat): Option<int>
    requires at <= |elems|
  {
    if at < |elems| && elems[at].from == from then Some(elems[at].to)
    else if at > 0 then Some(elems[at - 1].to)
    else None
  }

  /** at is the position of the first entry that is not before the address. */
  ghost predicate IsLowerBound(elems: seq<Elem>, at: nat, from: nat) {
    && at <= |elems|
    && (forall i :: 0 <= i < at ==> elems[i].from < from)
    && (forall i :: at <= i < |elems| ==> from <= elems[i].from)
  }

  class Map {
    var elems: seq<Elem>
    ghost var pushed: seq<Elem>

    ghost predicate Valid()
      reads this
    {
      Ascending(pushed) && elems == Compressed(pushed, |pushed|)
    }

    constructor ()
      ensures Valid() && pushed == []
    {
      elems, pushed := [], [];
    }

    method PushBack(elem: Elem)
      requires Valid() && (pushed != [] ==> pushed[|pushed| - 1].from <= elem.from)
      modifies this
      ensures Valid() && pushed == old(pushed) + [elem]
    {
      CompressedPrefix(pushed, pushed + [elem], |pushed|);
      pushed := pushed + [elem];
      if elems != [] && elem.to == elems[|elems| - 1].to {
        return;
      }
      elems := elems + [elem];
    }

    /** std::lower_bound. */
    method LowerBound(from: nat) returns (at: nat)
      requires Ascending(elems)
      ensures IsLowerBound(elems, at, from)
    {
      at := 0;
      var count := |elems|;
      while count > 0
        invariant 0 <= count && at + count <= |elems|
        invariant forall i :: 0 <= i < at ==> elems[i].from < from
        invariant forall i :: at + count <= i < |elems| ==> from <= elems[i].from
      {
        var step := count / 2;
        if elems[at + step].from < from {
          at, count := at + step + 1, count - step - 1;
        } else {
          count := step;
        }
      }
    }

    method Find(from: nat) returns (r: Option<int>)
      requires Valid()
      ensures exists at :: IsLowerBound(elems, at, from) && r == Found(elems, at, from)
      ensures GroupsAgree(elems) ==> r == Lookup(pushed, |pushed|, from)
    {
      CompressedAscends(pushed, |pushed|);
      var at := LowerBound(from);
      if at < |elems| && elems[at].from == from {
        r := Some(elems[at].to);
      } else if at > 0 {
        r := Some(elems[at - 1].to);
      } else {
        r := None;
      }
      CompressedLookup(pushed, |pushed|, from);
      if GroupsAgree(elems) {
        FindIsLookup(elems, at, from);
      }
    }
  }

  lemma {:induction false} CompressedPrefix(a: seq<Elem>, b: seq<Elem>, n: nat)
    requires a <= b && n <= |a|
    ensures Compressed(a, n) == Compressed(b, n)
  {
    if n > 0 {
      CompressedPrefix(a, b, n - 1);
    }
  }

  lemma {:induction false} CompressedAscends(pushed: seq<Elem>, n: nat)
    requires n <= |pushed| && Ascending(pushed)
    ensures Ascending(Compressed(pushed, n))
    ensures forall i :: 0 <= i < |Compressed(pushed, n)| && n < |pushed| ==>
                          Compressed(pushed, n)[i].from <= pushed[n].from
  {
    if n > 0 {
      CompressedAscends(pushed, n - 1);
    }
  }

  /** Dropping entries that change nothing does not change the map. */
  lemma {:induction false} CompressedLookup(pushed: seq<Elem>, n: nat, from: nat)
    requires n <= |pushed| && Ascending(pushed)
    ensures var c := Compressed(pushed, n); Lookup(c, |c|, from) == Lookup(pushed, n, from)
  {
    if n > 0 {
      CompressedLookup(pushed, n - 1, from);
      CompressedAscends(pushed, n - 1);
      var before := Compressed(pushed, n - 1);
      LookupPrefix(before, before + [pushed[n - 1]], |before|, from);
    }
  }

  lemma {:induction false} LookupPrefix(a: seq<Elem>, b: seq<Elem>, n: nat, from: nat)
    requires a <= b && n <= |a|
    ensures Lookup(a, n, from) == Lookup(b, n, from)
  {
    if n > 0 {
      LookupPrefix(a, b, n - 1, from);
    }
  }

  predicate FirstAt(elems: seq<Elem>, i: int) {
    0 <= i < |elems| && (i == 0 || elems[i - 1].from < elems[i].from)
  }

  predicate LastAt(elems: seq<Elem>, i: int) {
    0 <= i < |elems| && (i == |elems| - 1 || elems[i].from < elems[i + 1].from)
  }

  /** The first and the last entry kept for an address say the same. */
  ghost predicate GroupsAgree(elems: seq<Elem>) {
    forall i, j :: FirstAt(elems, i) && LastAt(elems, j) && elems[i].from == elems[j].from ==>
      elems[i].to == elems[j].to
  }

  /** What the last entry at or before an address is. */
  lemma {:induction false} LookupAt(elems: seq<Elem>, n: nat, from: nat, j: nat)
    requires j < n <= |elems| && elems[j].from <= from && forall i :: j < i < n ==> from < elems[i].from
    ensures Lookup(elems, n, from) == Some(elems[j].to)
  {
    if j < n - 1 {
      LookupAt(elems, n - 1, from, j);
    }
  }

  lemma {:induction false} LookupNone(elems: seq<Elem>, n: nat, from: nat)
    requires n <= |elems| && forall i :: 0 <= i < n ==> from < elems[i].from
    ensures Lookup(elems, n, from) == None
  {
    if n > 0 {
      LookupNone(elems, n - 1, from);
    }
  }

  /** The last entry with the address of entry i. */
  lemma {:induction false} GroupEnd(elems: seq<Elem>, i: nat) returns (j: nat)
    requires i < |elems| && Ascending(elems)
    ensures i <= j < |elems| && elems[j].from == elems[i].from && LastAt(elems, j)
    ensures forall k :: j < k < |elems| ==> elems[i].from < elems[k].from
    decreases |elems| - i
  {
    if i + 1 < |elems| && elems[i + 1].from == elems[i].from {
      j := GroupEnd(elems, i + 1);
    } else {
      j := i;
    }
  }

  lemma FindIsLookup(elems: seq<Elem>, at: nat, from: nat)
    requires Ascending(elems) && IsLowerBound(elems, at, from) && GroupsAgree(elems)
    ensures Found(elems, at, from) == Lookup(elems, |elems|, from)
  {
    if at < |elems| && elems[at].from == from {
      var j := GroupEnd(elems, at);
      assert FirstAt(elems, at);
      LookupAt(elems, |elems|, from, j);
    } else if at > 0 {
      LookupAt(elems, |elems|, from, at - 1);
    } else {
      LookupNone(elems, |elems|, from);
    }
  }

  /** If the first and the last entry of a group differ, the lookup of their address goes wrong. */
  lemma FindIsNotLookup(elems: seq<Elem>, i: nat, j: nat)
    requires Ascending(elems) && FirstAt(elems, i) && LastAt(elems, j)
    requires elems[i].from == elems[j].from && elems[i].to != elems[j].to
    ensures IsLowerBound(elems, i, elems[i].from)
    ensures Found(elems, i, elems[i].from) != Lookup(elems, |elems|, elems[i].from)
  {
    LookupAt(elems, |elems|, elems[i].from, j);
  }

  /**
   * Find answers every query as the uncompressed map does exactly if the entries kept for one
   * address begin and end alike.
   */
  lemma FindExact(elems: seq<Elem>)
    requires Ascending(elems)
    ensures GroupsAgree(elems) <==>
            forall at, from :: IsLowerBound(elems, at, from) ==> Found(elems, at, from) == Lookup(elems, |elems|, from)
  {
    if GroupsAgree(elems) {
      forall at, from | IsLowerBound(elems, at, from) ensures Found(elems, at, from) == Lookup(elems, |elems|, from) {
        FindIsLookup(elems, at, from);
      }
    } else {
      var i, j :| FirstAt(elems, i) && LastAt(elems, j) && elems[i].from == elems[j].from && elems[i].to != elems[j].to;
      FindIsNotLookup(elems, i, j);
    }
  }

  /** With strictly increasing addresses every group has one entry. */
  lemma {:induction false} StrictlyAscending(pushed: seq<Elem>, n: nat)
    requires n <= |pushed| && Strict(pushed)
    ensures Strict(Compressed(pushed, n))
    ensures forall i :: 0 <= i < |Compressed(pushed, n)| && n < |pushed| ==>
                          Compressed(pushed, n)[i].from < pushed[n].from
  {
    if n > 0 {
      StrictlyAscending(pushed, n - 1);
    }
  }

  ghost predicate Strict(elems: seq<Elem>) {
    forall i, j :: 0 <= i < j < |elems| ==> elems[i].from < elems[j].from
  }

  lemma SingleEntries(elems: seq<Elem>)
    requires Strict(elems)
    ensures GroupsAgree(elems)
  {
    forall i, j | FirstAt(elems, i) && LastAt(elems, j) && elems[i].from == elems[j].from
      ensures elems[i].to == elems[j].to
    {
      assert i == j;
    }
  }

  lemma StrictGroupsAgree(pushed: seq<Elem>)
    requires Strict(pushed)
    ensures GroupsAgree(Compressed(pushed, |pushed|))
  {
    StrictlyAscending(pushed, |pushed|);
    SingleEntries(Compressed(pushed, |pushed|));
  }

  /** Two entries for one address, which push_back allows: Find returns the older one. */
  lemma EqualAddressExample()
    ensures var elems := Compressed([Elem(4, 1), Elem(4, 2)], 2);
            IsLowerBound(elems, 0, 4) && Found(elems, 0, 4) == Some(1) && Lookup(elems, |elems|, 4) == Some(2)
  {
    assert Compressed([Elem(4, 1), Elem(4, 2)], 1) == [Elem(4, 1)];
  }
}
