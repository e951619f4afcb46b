/** The list of recently used peers, held in a fixed array (src/config.c:363-416). */
module PeerHistory {
  import opened Lists

  const MAX_HISTORY: nat := 32
  /** ROOTSTREAM_CODE_MAX_LEN, with its terminating NUL. */
  const CODE_BUFFER: nat := 128

  /** snprintf("%s") into a code buffer. */
  function Clip(code: string): string { if |code| < CODE_BUFFER then code else code[..CODE_BUFFER - 1] }

  function First(list: seq<string>, code: string, i: nat): (r: nat)
    requires i <= |list|
    ensures i <= r <= |list| && (r < |list| ==> list[r] == code) && (forall k :: i <= k < r ==> list[k] != code)
    decreases |list| - i
  {
    if i == |list| || list[i] == code then i else First(list, code, i + 1)
  }

  function MoveToFront(list: seq<string>, i: nat): seq<string>
    requires i < |list|
  {
    [list[i]] + list[..i] + list[i + 1..]
  }

  function Capped(list: seq<string>): seq<string> { if |list| <= MAX_HISTORY then list else list[..MAX_HISTORY] }

  /** What one addition does to the list. */
  function Add(list: seq<string>, code: string): seq<string> {
    if code == "" then list else
    var i := First(list, code, 0);
    if i < |list| then MoveToFront(list, i) else Capped([Clip(code)] + list)
  }

  lemma MovedUp(was: seq<string>, now: seq<string>, i: nat)
    requires i < |was| == |now| && now[0] == was[i]
    requires forall k :: 0 < k <= i ==> now[k] == was[k - 1]
    requires forall k :: i < k < |was| ==> now[k] == was[k]
    ensures now == MoveToFront(was, i)
  {
  }

  lemma ShiftedIn(was: seq<string>, now: seq<string>, code: string)
    requires |was| <= MAX_HISTORY && |now| == (if |was| < MAX_HISTORY then |was| + 1 else MAX_HISTORY)
    requires now[0] == code && forall k :: 0 < k < |now| ==> now[k] == was[k - 1]
    ensures now == Capped([code] + was)
  {
  }

  lemma FirstStep(list: seq<string>, code: string, i: nat)
    requires i < |list|
    ensures First(list, code, i) == if list[i] == code then i else First(list, code, i + 1)
  {
  }

  lemma FirstEnds(list: seq<string>, code: string)
    ensures First(list, code, |list|) == |list|
  {
  }

  /** The fields of settings_t that hold the history. */
  class History {
    const entries: array<string>
    var count: nat
    var lastConnected: string

    ghost predicate Valid() reads this { entries.Length == MAX_HISTORY && count <= MAX_HISTORY }

    constructor ()
      ensures Valid() && entries[..count] == [] && lastConnected == "" && fresh(entries)
    {
      entries := new string[MAX_HISTORY](_ => "");
      count, lastConnected := 0, "";
    }

    /** Copying each of the first n entries one place up, from the end. */
    method ShiftDown(n: nat)
      requires Valid() && n < MAX_HISTORY
      modifies entries
      ensures entries[0] == old(entries[0])
      ensures forall k :: 0 < k <= n ==> entries[k] == old(entries[k - 1])
      ensures forall k :: n < k < MAX_HISTORY ==> entries[k] == old(entries[k])
    {
      var j := n;
      while j > 0
        invariant 0 <= j <= n && entries[0] == old(entries[0])
        invariant forall k :: 0 <= k <= j ==> entries[k] == old(entries[k])
        invariant forall k :: j < k <= n ==> entries[k] == old(entries[k - 1])
        invariant forall k :: n < k < MAX_HISTORY ==> entries[k] == old(entries[k])
      {
        entries[j] := entries[j - 1];
        j := j - 1;
      }
    }

    /** config_add_peer_to_history. */
    method AddPeerToHistory(code: string)
      requires Valid()
      modifies this, entries
      ensures Valid() && entries[..count] == Add(old(entries[..count]), code)
      ensures lastConnected == if code == "" then old(lastConnected) else Clip(code)
    {
      if code == "" { return; }
      hide MoveToFront, Capped, Clip, First;
      FirstEnds(entries[..count], code);
      ghost var was := entries[..count];
      var i := 0;
      while i < count
        invariant Valid() && i <= count == old(count) && entries[..count] == was == old(entries[..count])
        invariant First(was, code, 0) == First(was, code, i)
      {
        FirstStep(was, code, i);
        if entries[i] == code {
          if i > 0 {
            var temp := entries[i];
            ShiftDown(i);
            entries[0] := temp;
          }
          MovedUp(was, entries[..count], i);
          lastConnected := Clip(code);
          return;
        }
        i := i + 1;
      }
      if count < MAX_HISTORY {
        ShiftDown(count);
        count := count + 1;
      } else {
        ShiftDown(MAX_HISTORY - 1);
      }
      entries[0] := Clip(code);
      ShiftedIn(was, entries[..count], Clip(code));
      lastConnected := Clip(code);
    }
  }

  /** The list after a sequence of additions, starting empty. */
  function After(codes: seq<string>): seq<string> {
    if codes == [] then [] else Add(After(codes[..|codes| - 1]), codes[|codes| - 1])
  }

  function Remove(list: seq<string>, code: string): seq<string> {
    if list == [] then []
    else if list[0] == code then Remove(list[1..], code)
    else [list[0]] + Remove(list[1..], code)
  }

  /** The distinct codes, most recently used first, without any limit. */
  function Recent(codes: seq<string>): seq<string> {
    if codes == [] then [] else
    var last := codes[|codes| - 1];
    [last] + Remove(Recent(codes[..|codes| - 1]), last)
  }

  lemma ConsDistinct(x: string, list: seq<string>)
    requires Distinct(list) && x !in list
    ensures Distinct([x] + list)
  {
    var longer := [x] + list;
    forall i, j | 0 <= i < j < |longer| ensures longer[i] != longer[j] {
      assert longer[j] == list[j - 1] && longer[j] in list;
    }
  }

  lemma {:induction false} RemoveKeeps(list: seq<string>, code: string)
    ensures forall x :: x in Remove(list, code) <==> x in list && x != code
    ensures |Remove(list, code)| <= |list|
    ensures Distinct(list) ==> Distinct(Remove(list, code))
  {
    if list != [] {
      var rest := list[1..];
      RemoveKeeps(rest, code);
      assert list == [list[0]] + rest;
      if Distinct(list) {
        assert Distinct(rest) && list[0] !in rest;
        ConsDistinct(list[0], Remove(rest, code));
      }
    }
  }

  lemma {:induction false} RemoveAbsent(list: seq<string>, code: string)
    requires code !in list
    ensures Remove(list, code) == list
  {
    if list != [] { RemoveAbsent(list[1..], code); }
  }

  lemma {:induction false} RemovePresent(list: seq<string>, code: string, i: nat)
    requires Distinct(list) && i < |list| && list[i] == code
    ensures Remove(list, code) == list[..i] + list[i + 1..]
  {
    if i == 0 {
      RemoveAbsent(list[1..], code);
    } else {
      RemovePresent(list[1..], code, i - 1);
      assert list[1..][..i - 1] == list[1..i] && list[1..][i..] == list[i + 1..];
      assert list[..i] == [list[0]] + list[1..i];
    }
  }

  lemma {:induction false} RecentDistinct(codes: seq<string>)
    ensures Distinct(Recent(codes))
    ensures forall x :: x in Recent(codes) <==> x in codes
  {
    if codes != [] {
      var before, last := codes[..|codes| - 1], codes[|codes| - 1];
      RecentDistinct(before);
      RemoveKeeps(Recent(before), last);
      ConsDistinct(last, Remove(Recent(before), last));
      assert codes == before + [last];
    }
  }

  lemma MoveOnCut(list: seq<string>, i: nat)
    requires i < |Capped(list)|
    ensures MoveToFront(Capped(list), i) == Capped([list[i]] + (list[..i] + list[i + 1..]))
  {
    var moved, whole := MoveToFront(Capped(list), i), [list[i]] + (list[..i] + list[i + 1..]);
    assert |moved| == |Capped(list)| && |whole| == |list|;
    assert forall k :: 0 <= k < |moved| ==> moved[k] == whole[k];
  }

  lemma CappedTwice(list: seq<string>, code: string, j: nat)
    requires MAX_HISTORY <= j < |list|
    ensures Capped([code] + Capped(list)) == Capped([code] + (list[..j] + list[j + 1..]))
    ensures Capped([code] + Capped(list)) == Capped([code] + list)
  {
  }

  /** Adding to the cut list is the cut of adding to the whole one. */
  lemma AddOnCut(list: seq<string>, code: string)
    requires Distinct(list) && 0 < |code| < CODE_BUFFER
    ensures Add(Capped(list), code) == Capped([code] + Remove(list, code))
  {
    hide Remove, MoveToFront, First, Distinct;
    var i := First(Capped(list), code, 0);
    if i < |Capped(list)| {
      RemovePresent(list, code, i);
      MoveOnCut(list, i);
    } else if code in list {
      var j :| 0 <= j < |list| && list[j] == code;
      RemovePresent(list, code, j);
      assert j >= MAX_HISTORY;
      CappedTwice(list, code, j);
    } else {
      RemoveAbsent(list, code);
      if |list| > MAX_HISTORY { CappedTwice(list, code, MAX_HISTORY); }
    }
  }

  /**
   * After any additions of codes that fit their buffers, the array holds exactly the distinct codes,
   * most recent first, cut to 32, and its first entry is the last code added.
   */
  lemma {:induction false} HistoryIsLru(codes: seq<string>)
    requires forall c :: c in codes ==> 0 < |c| < 128
    ensures After(codes) == if |Recent(codes)| <= 32 then Recent(codes) else Recent(codes)[..32]
    ensures Distinct(After(codes)) && |After(codes)| <= 32
    ensures codes != [] ==> After(codes) != [] && After(codes)[0] == codes[|codes| - 1]
  {
    RecentDistinct(codes);
    if codes != [] {
      var before, last := codes[..|codes| - 1], codes[|codes| - 1];
      HistoryIsLru(before);
      RecentDistinct(before);
      assert last in codes;
      AddOnCut(Recent(before), last);
    }
  }

  /** The place of the last use of a code, counted from 1; 0 if it was never used. */
  function LastUse(codes: seq<string>, code: string): nat {
    if codes == [] then 0
    else if codes[|codes| - 1] == code then |codes|
    else LastUse(codes[..|codes| - 1], code)
  }

  lemma {:induction false} LastUseBound(codes: seq<string>, code: string)
    ensures LastUse(codes, code) <= |codes|
  {
    if codes != [] { LastUseBound(codes[..|codes| - 1], code); }
  }

  ghost predicate ByLastUse(codes: seq<string>, list: seq<string>) {
    forall i, j :: 0 <= i < j < |list| ==> LastUse(codes, list[i]) > LastUse(codes, list[j])
  }

  lemma {:induction false} RemoveByLastUse(codes: seq<string>, list: seq<string>, code: string)
    requires ByLastUse(codes, list)
    ensures ByLastUse(codes, Remove(list, code))
  {
    RemoveKeeps(list, code);
    if list != [] {
      RemoveKeeps(list[1..], code);
      RemoveByLastUse(codes, list[1..], code);
      forall x | x in Remove(list[1..], code) ensures LastUse(codes, list[0]) > LastUse(codes, x) {
        var j :| 0 <= j < |list[1..]| && list[1..][j] == x;
        assert list[j + 1] == x;
      }
    }
  }

  /** "Most recent first": the entries are ordered by their last use, strictly. */
  lemma {:induction false} RecentByLastUse(codes: seq<string>)
    ensures ByLastUse(codes, Recent(codes))
  {
    if codes != [] {
      var before, last := codes[..|codes| - 1], codes[|codes| - 1];
      RecentByLastUse(before);
      RemoveByLastUse(before, Recent(before), last);
      RemoveKeeps(Recent(before), last);
      var rest := Remove(Recent(before), last);
      forall x | x in rest ensures LastUse(codes, x) == LastUse(before, x) < |codes| {
        LastUseBound(before, x);
      }
    }
  }

  /** An empty code is ignored; one too long for its buffer is never recognised, and enters cut short each time. */
  lemma OddCodes(list: seq<string>, code: string)
    requires forall c :: c in list ==> |c| < 128
    ensures Add(list, "") == list
    ensures |code| >= 128 && |list| < 32 ==> Add(list, code) == [code[..127]] + list
    ensures |code| >= 128 && |list| == 32 ==> Add(list, code) == [code[..127]] + list[..31]
  {
    var i := First(list, code, 0);
    assert i < |list| ==> list[i] in list;
  }
}
