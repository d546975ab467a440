/** Splitting the list of adapter names in main
    (Examples-remote/PacketDriver/TestPacketCapture/TestPacketCapture.c). */
module NameList {
  import opened Text

  const MAX_NUM_ADAPTER: nat := 10
  const NAME_SIZE: nat := 1024

  // What the library stores: every name with a terminating NUL, and one more NUL.
  function Joined(names: seq<string>): string {
    if names == [] then [NUL] else names[0] + [NUL] + Joined(names[1..])
  }

  predicate Name(name: string) {
    0 < |name| < NAME_SIZE && NUL !in name
  }

  predicate Names(names: seq<string>) {
    forall k :: 0 <= k < |names| ==> Name(names[k])
  }

  ghost predicate NameAt(text: string, p: nat, name: string) {
    p + |name| < |text| && text[p + |name|] == NUL && forall k :: p <= k < p + |name| ==> text[k] == name[k - p]
  }

  ghost predicate NamesAt(text: string, p: nat, names: seq<string>)
    decreases |names|
  {
    if names == [] then p < |text| && text[p] == NUL
    else NameAt(text, p, names[0]) && NamesAt(text, p + |names[0]| + 1, names[1..])
  }

  lemma {:induction false} JoinedIsAt(text: string, p: nat, names: seq<string>)
    requires p <= |text| && Joined(names) <= text[p..]
    ensures NamesAt(text, p, names)
    decreases |names|
  {
    var all, rest := Joined(names), text[p..];
    assert forall k :: 0 <= k < |all| ==> text[p + k] == rest[k] == all[k];
    if names != [] {
      var n := |names[0]|;
      assert all[..n] == names[0] && text[p + n] == all[n];
      forall k | p <= k < p + n
        ensures text[k] == names[0][k - p]
      {
        assert text[p + (k - p)] == all[k - p] == all[..n][k - p];
      }
      assert all[n + 1..] == Joined(names[1..]) && text[p + n + 1..] == rest[n + 1..];
      JoinedIsAt(text, p + n + 1, names[1..]);
    }
  }

  // Row i of AdapterList, read as a C string, is the name.
  ghost predicate Row(list: array2<char>, i: nat, name: string)
    reads list
    requires i < list.Length0 && list.Length1 == NAME_SIZE
  {
    && |name| < NAME_SIZE && NUL !in name && list[i, |name|] == NUL
    && forall k :: 0 <= k < |name| ==> list[i, k] == name[k]
  }

  ghost predicate Cleared(list: array2<char>, from: nat)
    reads list
  {
    forall i, k :: from <= i < list.Length0 && 0 <= k < list.Length1 ==> list[i, k] == NUL
  }

  // The memcpy into row i, which is still clear: the name that starts at from and ends at to.
  method StoreName(list: array2<char>, i: nat, text: string, from: nat, to: nat, ghost names: seq<string>)
    requires list.Length0 == MAX_NUM_ADAPTER && list.Length1 == NAME_SIZE
    requires i < |names| <= MAX_NUM_ADAPTER && Name(names[i])
    requires NameAt(text, from, names[i]) && to == from + |names[i]|
    requires Cleared(list, i) && forall r :: 0 <= r < i ==> Row(list, r, names[r])
    modifies list
    ensures Cleared(list, i + 1) && forall r :: 0 <= r < i + 1 ==> Row(list, r, names[r])
    ensures forall r, k :: 0 <= r < list.Length0 && 0 <= k < list.Length1 ==>
              list[r, k] == if r == i && k < to - from then text[from + k] else old(list[r, k])
  {
    forall k | 0 <= k < to - from {
      list[i, k] := text[from + k];
    }
  }

  /** The splitting loop on a list of at most 10 names that are not empty and fit their row:
      row i holds name i, the count is right, and nothing after the first double NUL counts. */
  method SplitNames(text: string, list: array2<char>, ghost names: seq<string>) returns (adapterNum: nat)
    requires list.Length0 == MAX_NUM_ADAPTER && list.Length1 == NAME_SIZE && Cleared(list, 0)
    requires 0 < |names| <= MAX_NUM_ADAPTER && Names(names) && Joined(names) <= text
    modifies list
    ensures adapterNum == |names| && Cleared(list, adapterNum)
    ensures forall i :: 0 <= i < adapterNum ==> Row(list, i, names[i])
  {
    assert text[0..] == text;
    JoinedIsAt(text, 0, names);
    assert names[0..] == names;
    var temp, temp1, i := 0, 0, 0;
    while text[temp] != NUL || text[temp - 1] != NUL
      invariant i <= |names| && temp1 <= temp < |text| && NamesAt(text, temp1, names[i..])
      invariant i < |names| ==> NameAt(text, temp1, names[i]) && temp <= temp1 + |names[i]|
      invariant i == |names| ==> temp == temp1 > 0 && text[temp] == text[temp - 1] == NUL
      invariant Cleared(list, i) && forall r :: 0 <= r < i ==> Row(list, r, names[r])
      decreases |text| - temp
    {
      assert Name(names[i]) && (temp > temp1 ==> text[temp - 1] == names[i][temp - 1 - temp1]);
      if text[temp] == NUL {
        StoreName(list, i, text, temp1, temp, names);
        assert names[i..][1..] == names[i + 1..];
        temp1, i := temp + 1, i + 1;
      }
      temp := temp + 1;
    }
    adapterNum := i;
  }
}
