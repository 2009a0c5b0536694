/** How far a run of x87 instructions reaches (X87Cache::lookahead). */
module Lookahead {
  import opened Arm

  const MAX_BRIDGE_DEMAND: int := 4
  const MAX_BRIDGE_GAP: nat := 16

  type Guest = g: nat | g < 16

  /**
   What the driver asks about an instruction: has it an x87 translator, is that disabled, is it a
   transcendental that keeps the cache alive, how many scratch registers does the stock
   translator need for it (None: it must not be bridged), and which guest registers it writes.
   */
  datatype Insn = Insn(handled: bool, disabled: bool, transcendental: bool, demand: Option<nat>, written: set<Guest>)

  datatype Options = Options(bridge: bool, keepalive: bool)

  predicate Member(i: Insn, o: Options) {
    if i.handled then !i.disabled else o.keepalive && i.transcendental
  }

  predicate Admissible(i: Insn) {
    i.demand.Some? && i.demand.value <= MAX_BRIDGE_DEMAND
  }

  /** Leading run members. */
  function Group(s: seq<Insn>, o: Options): (n: nat)
    ensures n <= |s|
  {
    if s == [] || !Member(s[0], o) then 0 else 1 + Group(s[1..], o)
  }

  /** Leading admissible instructions, at most `room`. */
  function Gap(s: seq<Insn>, room: nat): (n: nat)
    ensures n <= |s| && n <= room
  {
    if s == [] || room == 0 || !Admissible(s[0]) then 0 else 1 + Gap(s[1..], room - 1)
  }

  /** A gap is crossed only towards another run member. */
  function RunLength(s: seq<Insn>, o: Options): (n: nat)
    ensures n <= |s|
    decreases |s|
  {
    var g := Group(s, o);
    var gap := Gap(s[g..], MAX_BRIDGE_GAP);
    if !o.bridge || g == 0 || gap == 0 || g + gap >= |s| || !Member(s[g + gap], o) then g
    else g + gap + RunLength(s[g + gap..], o)
  }

  /** Is a gap of this length, after a group of that length, crossed? */
  predicate Crosses(s: seq<Insn>, g: nat, gap: nat, o: Options) {
    o.bridge && g > 0 && gap > 0 && g + gap < |s| && Member(s[g + gap], o)
  }

  lemma RunLengthIs(s: seq<Insn>, o: Options)
    ensures var g := Group(s, o);
      var gap := Gap(s[g..], MAX_BRIDGE_GAP);
      RunLength(s, o) == if Crosses(s, g, gap, o) then g + gap + RunLength(s[g + gap..], o) else g
  {
    hide Group, Gap, Member;
  }

  lemma {:induction false} GroupMembers(s: seq<Insn>, o: Options)
    ensures forall i :: 0 <= i < Group(s, o) ==> Member(s[i], o)
    ensures Group(s, o) < |s| ==> !Member(s[Group(s, o)], o)
  {
    if s != [] && Member(s[0], o) {
      GroupMembers(s[1..], o);
      forall i | 0 <= i < Group(s, o)
        ensures Member(s[i], o)
      {
        assert i > 0 ==> s[i] == s[1..][i - 1];
      }
    }
  }

  lemma {:induction false} GapAdmissible(s: seq<Insn>, room: nat)
    ensures forall i :: 0 <= i < Gap(s, room) ==> Admissible(s[i])
  {
    if s != [] && room > 0 && Admissible(s[0]) {
      GapAdmissible(s[1..], room - 1);
      forall i | 0 <= i < Gap(s, room)
        ensures Admissible(s[i])
      {
        assert i > 0 ==> s[i] == s[1..][i - 1];
      }
    }
  }

  /** What a run of length n must be. */
  ghost predicate SoundRun(s: seq<Insn>, n: nat, o: Options)
    requires n <= |s|
  {
    && (n == 0 <==> s == [] || !Member(s[0], o))
    && (n > 0 ==> Member(s[n - 1], o))
    && forall i :: 0 <= i < n ==> Member(s[i], o) || (o.bridge && Admissible(s[i]))
  }

  lemma GroupIsSound(s: seq<Insn>, o: Options)
    ensures SoundRun(s, Group(s, o), o)
  {
    GroupMembers(s, o);
    hide Member, Admissible;
  }

  /** A group, a gap and a sound rest. */
  lemma BridgedIsSound(s: seq<Insn>, g: nat, gap: nat, n: nat, o: Options)
    requires o.bridge && 0 < g && g + gap < |s| && g + gap + n <= |s| && Member(s[g + gap], o)
    requires SoundRun(s, g, o) && SoundRun(s[g + gap..], n, o)
    requires forall i :: 0 <= i < gap ==> Admissible(s[g..][i])
    ensures SoundRun(s, g + gap + n, o)
  {
    var rest := s[g + gap..];
    assert forall i :: g <= i < g + gap ==> s[i] == s[g..][i - g];
    assert forall i :: g + gap <= i < |s| ==> s[i] == rest[i - g - gap];
    hide Member, Admissible;
  }

  /** Every instruction of the run is a member or may be bridged, and the last one is a member. */
  lemma {:induction false} RunIsSound(s: seq<Insn>, o: Options)
    ensures SoundRun(s, RunLength(s, o), o)
    decreases |s|
  {
    hide Group, Gap, Member, Admissible, RunLength, SoundRun;
    var g := Group(s, o);
    var gap := Gap(s[g..], MAX_BRIDGE_GAP);
    GroupIsSound(s, o);
    RunLengthIs(s, o);
    if Crosses(s, g, gap, o) {
      GapAdmissible(s[g..], MAX_BRIDGE_GAP);
      RunIsSound(s[g + gap..], o);
      BridgedIsSound(s, g, gap, RunLength(s[g + gap..], o), o);
    }
  }

  lemma {:induction false} GroupEnds(s: seq<Insn>, o: Options, k: nat)
    requires k < |s| && !Member(s[k], o) && forall i :: 0 <= i < k ==> Member(s[i], o)
    ensures Group(s, o) == k
    decreases k
  {
    hide Member;
    if k > 0 {
      assert s[1..][k - 1] == s[k];
      GroupEnds(s[1..], o, k - 1);
    }
  }

  /** A disabled instruction ends the run just before it, also if it is the second of a pair to be fused. */
  lemma DisabledEndsRun(s: seq<Insn>, o: Options, k: nat)
    requires k < |s| && s[k].handled && s[k].disabled && !Admissible(s[k])
    requires forall i :: 0 <= i < k ==> Member(s[i], o)
    ensures RunLength(s, o) == k
  {
    GroupEnds(s, o, k);
    RunLengthIs(s, o);
    assert s[k..][0] == s[k];
    assert Gap(s[k..], MAX_BRIDGE_GAP) == 0;
    hide RunLength, Group, Gap, Member;
  }

  /** Among any seventeen instructions in a row of a run there is a member. */
  lemma {:induction false} GapsAreShort(s: seq<Insn>, o: Options, i: nat)
    requires i + 16 < RunLength(s, o)
    ensures exists j :: i <= j <= i + 16 && Member(s[j], o)
    decreases |s|
  {
    var g := Group(s, o);
    var gap := Gap(s[g..], MAX_BRIDGE_GAP);
    GroupMembers(s, o);
    hide Group, Gap, Member;
    if i < g {
      assert Member(s[i], o);
    } else if i < g + gap {
      assert Member(s[g + gap], o);
    } else {
      var rest := s[g + gap..];
      GapsAreShort(rest, o, i - g - gap);
      var j :| i - g - gap <= j <= i - g - gap + MAX_BRIDGE_GAP && Member(rest[j], o);
      assert s[g + gap + j] == rest[j];
    }
  }

  /**
   Who is in a run: x87 instructions that are not disabled, transcendentals with keepalive on, and with the
   bridge on whatever needs at most four registers; it begins and ends with one of the first two.
   */
  lemma RunContents(s: seq<Insn>, o: Options)
    ensures var n := RunLength(s, o);
      && (forall i :: 0 <= i < n ==>
            || (s[i].handled && !s[i].disabled) || (!s[i].handled && o.keepalive && s[i].transcendental)
            || (o.bridge && s[i].demand.Some? && s[i].demand.value <= 4))
      && (n > 0 <==> s != [] && ((s[0].handled && !s[0].disabled) || (!s[0].handled && o.keepalive && s[0].transcendental)))
      && (n > 0 ==> (s[n - 1].handled && !s[n - 1].disabled) || (!s[n - 1].handled && o.keepalive && s[n - 1].transcendental))
  {
    RunIsSound(s, o);
    hide RunLength;
  }

  /** Without the bridge the run is exactly the leading such instructions. */
  lemma PlainRun(s: seq<Insn>, o: Options)
    requires !o.bridge
    ensures var n := RunLength(s, o);
      && (forall i :: 0 <= i < n ==> (s[i].handled && !s[i].disabled) || (!s[i].handled && o.keepalive && s[i].transcendental))
      && (n < |s| ==> (s[n].handled && s[n].disabled) || (!s[n].handled && !(o.keepalive && s[n].transcendental)))
  {
    RunLengthIs(s, o);
    GroupMembers(s, o);
    hide RunLength, Group, Gap;
  }

  /** The k leading instructions, at most 16, need at most four registers each, and it cannot be more than k. */
  predicate Bridgeable(s: seq<Insn>, k: nat) {
    && 1 <= k <= 16 && k < |s| && (forall i :: 0 <= i < k ==> s[i].demand.Some? && s[i].demand.value <= 4)
    && (k == 16 || s[k].demand.None? || s[k].demand.value > 4)
  }

  lemma {:induction false} GapIs(s: seq<Insn>, room: nat, k: nat)
    requires k <= room && k < |s| && (forall i :: 0 <= i < k ==> Admissible(s[i])) && (k == room || !Admissible(s[k]))
    ensures Gap(s, room) == k
    decreases k
  {
    hide Admissible;
    if k > 0 {
      assert s[1..][k - 1] == s[k];
      GapIs(s[1..], room - 1, k - 1);
    }
  }

  /** What follows is no member, and no bridge leads to one. */
  ghost predicate Ends(rest: seq<Insn>, o: Options, bridged: bool) {
    && (rest != [] ==> !Member(rest[0], o))
    && (bridged ==> forall k: nat :: Bridgeable(rest, k) ==> !Member(rest[k], o))
  }

  lemma NoBridge(s: seq<Insn>, o: Options, g: nat)
    requires g == Group(s, o) && !Crosses(s, g, Gap(s[g..], MAX_BRIDGE_GAP), o)
    ensures Ends(s[g..], o, o.bridge && g > 0)
  {
    GroupMembers(s, o);
    var rest := s[g..];
    forall k: nat | Bridgeable(rest, k)
      ensures Gap(rest, MAX_BRIDGE_GAP) == k && s[g + k] == rest[k]
    {
      GapIs(rest, MAX_BRIDGE_GAP, k);
    }
    hide Group, Gap, Member, Bridgeable;
  }

  /** The run cannot be extended. */
  lemma {:induction false} RunIsMaximal(s: seq<Insn>, o: Options)
    ensures Ends(s[RunLength(s, o)..], o, o.bridge && RunLength(s, o) > 0)
    decreases |s|
  {
    hide Group, Gap, Member, RunLength, Ends;
    var g := Group(s, o);
    var gap := Gap(s[g..], MAX_BRIDGE_GAP);
    RunLengthIs(s, o);
    if Crosses(s, g, gap, o) {
      var tail := s[g + gap..];
      RunIsMaximal(tail, o);
      RunStarts(tail, o);
      Suffix(s, g + gap, RunLength(tail, o));
    } else {
      NoBridge(s, o, g);
    }
  }

  lemma RunStarts(s: seq<Insn>, o: Options)
    requires s != [] && Member(s[0], o)
    ensures RunLength(s, o) > 0
  {
    GroupEmpty(s, o);
    RunLengthIs(s, o);
    hide Member, RunLength, Group, Gap;
  }

  lemma Suffix(instrs: seq<Insn>, i: nat, k: nat)
    requires i + k <= |instrs|
    ensures instrs[i..][k..] == instrs[i + k..]
    ensures i + k < |instrs| ==> instrs[i..][k] == instrs[i + k]
  {
  }

  lemma GroupEmpty(s: seq<Insn>, o: Options)
    ensures Group(s, o) == 0 <==> s == [] || !Member(s[0], o)
  {
    hide Member;
  }

  lemma RunUnfold(instrs: seq<Insn>, i: nat, o: Options)
    requires i <= |instrs|
    ensures var g := Group(instrs[i..], o);
      var gap := Gap(instrs[i + g..], MAX_BRIDGE_GAP);
      && (g == 0 <==> i == |instrs| || !Member(instrs[i], o))
      && RunLength(instrs[i..], o) ==
           if !o.bridge || g == 0 || gap == 0 || i + g + gap >= |instrs| || !Member(instrs[i + g + gap], o) then g
           else g + gap + RunLength(instrs[i + g + gap..], o)
  {
    hide Group, Gap, Member, RunLength;
    var s := instrs[i..];
    var g := Group(s, o);
    Suffix(instrs, i, 0);
    Suffix(instrs, i, g);
    GroupEmpty(s, o);
    RunLengthIs(s, o);
    Suffix(instrs, i, g + Gap(s[g..], MAX_BRIDGE_GAP));
  }

  /** The scan of the source: groups and gaps in turn. */
  method Lookahead(instrs: seq<Insn>, start: nat, o: Options) returns (count: nat)
    requires start <= |instrs|
    ensures count == RunLength(instrs[start..], o)
  {
    hide Member, Admissible, Group, Gap, RunLength;
    count := 0;
    var i := start;
    while true
      invariant start <= i <= |instrs| && count == i - start
      invariant count + RunLength(instrs[i..], o) == RunLength(instrs[start..], o)
      invariant count > 0 ==> i < |instrs| && Member(instrs[i], o)
      decreases |instrs| - i
    {
      RunUnfold(instrs, i, o);
      var group := ScanGroup(instrs, i, o);
      count := count + group;
      i := i + group;
      if !o.bridge || count == 0 {
        break;
      }
      var gap := ScanGap(instrs, i);
      if gap == 0 || i + gap >= |instrs| || !Member(instrs[i + gap], o) {
        break;
      }
      count := count + gap;
      i := i + gap;
    }
  }

  method ScanGroup(instrs: seq<Insn>, start: nat, o: Options) returns (n: nat)
    requires start <= |instrs|
    ensures n == Group(instrs[start..], o)
  {
    n := 0;
    while start + n < |instrs| && Member(instrs[start + n], o)
      invariant start + n <= |instrs|
      invariant n + Group(instrs[start + n..], o) == Group(instrs[start..], o)
    {
      assert instrs[start + n..][1..] == instrs[start + n + 1..];
      n := n + 1;
    }
  }

  method ScanGap(instrs: seq<Insn>, start: nat) returns (n: nat)
    requires start <= |instrs|
    ensures n == Gap(instrs[start..], MAX_BRIDGE_GAP)
  {
    n := 0;
    while start + n < |instrs| && n < MAX_BRIDGE_GAP && Admissible(instrs[start + n])
      invariant start + n <= |instrs| && n <= MAX_BRIDGE_GAP
      invariant n + Gap(instrs[start + n..], MAX_BRIDGE_GAP - n) == Gap(instrs[start..], MAX_BRIDGE_GAP)
    {
      assert instrs[start + n..][1..] == instrs[start + n + 1..];
      n := n + 1;
    }
  }
}
