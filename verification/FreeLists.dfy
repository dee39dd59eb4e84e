/** Lists of free blocks or pages, by their addresses. */
module FreeLists {

  ghost predicate NoDuplicates(list: seq<nat>) {
    forall i, j :: 0 <= i < j < |list| ==> list[i] != list[j]
  }

  ghost function Elements(list: seq<nat>): set<nat> {
    set a | a in list
  }

  lemma {:induction false} SizeOfList(list: seq<nat>)
    requires NoDuplicates(list)
    ensures |Elements(list)| == |list|
  {
    if list != [] {
      SizeOfList(list[1..]);
      assert Elements(list) == Elements(list[1..]) + {list[0]};
      assert list[0] !in list[1..];
    }
  }
}
