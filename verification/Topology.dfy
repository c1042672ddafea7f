/** Rank groups parsed from one node id per rank. */
module Topologies {
  import opened Wrappers

  datatype Topology = Topology(nodeIds: seq<int>, nodeGroups: seq<seq<nat>>, leaders: seq<nat>)

  /** The distinct ids in the order of their first occurrence. */
  function FirstSeen(ids: seq<int>): seq<int> {
    if ids == [] then []
    else
      var seen := FirstSeen(ids[..|ids| - 1]);
      var last := ids[|ids| - 1];
      if last in seen then seen else seen + [last]
  }

  /** The ranks below `n` on node `id`, ascending. */
  function Members(ids: seq<int>, id: int, n: nat): seq<nat>
    requires n <= |ids|
  {
    if n == 0 then []
    else if ids[n - 1] == id then Members(ids, id, n - 1) + [n - 1]
    else Members(ids, id, n - 1)
  }

  lemma {:induction false} MembersAre(ids: seq<int>, id: int, n: nat)
    requires n <= |ids|
    ensures forall r: nat :: r in Members(ids, id, n) <==> r < n && ids[r] == id
    ensures forall i, j :: 0 <= i < j < |Members(ids, id, n)| ==> Members(ids, id, n)[i] < Members(ids, id, n)[j]
  {
    if n > 0 {
      MembersAre(ids, id, n - 1);
      var front := Members(ids, id, n - 1);
      forall i | 0 <= i < |front|
        ensures front[i] < n - 1
      {
        assert front[i] in front;
      }
    }
  }

  lemma {:induction false} FirstSeenIs(ids: seq<int>)
    ensures forall id :: id in FirstSeen(ids) <==> id in ids
    ensures forall r :: 0 <= r < |ids| ==> ids[r] in FirstSeen(ids)
    ensures forall i, j :: 0 <= i < j < |FirstSeen(ids)| ==> FirstSeen(ids)[i] != FirstSeen(ids)[j]
  {
    if ids != [] {
      var front := ids[..|ids| - 1];
      FirstSeenIs(front);
      assert ids == front + [ids[|ids| - 1]];
    }
  }

  function Group(ids: seq<int>, id: int): seq<nat> {
    Members(ids, id, |ids|)
  }

  /** Parse a list of node ids; an id list has one entry per rank. */
  function ParseTopology(ids: seq<int>, worldSize: int): (r: Result<Topology>)
    ensures r.Ok? <==> 0 < worldSize == |ids| && forall i :: 0 <= i < |ids| ==> 0 <= ids[i]
  {
    if worldSize <= 0 then Err("world_size must be positive")
    else if |ids| != worldSize then Err("topology rank count does not match world_size")
    else if exists i :: 0 <= i < |ids| && ids[i] < 0 then Err("topology node ids must be non-negative")
    else
      var ordered := FirstSeen(ids);
      var groups := seq(|ordered|, j requires 0 <= j < |ordered| => Group(ids, ordered[j]));
      GroupsNotEmpty(ids);
      Ok(Topology(ids, groups, seq(|groups|, j requires 0 <= j < |groups| => groups[j][0])))
  }

  lemma {:induction false} GroupsNotEmpty(ids: seq<int>)
    ensures forall j :: 0 <= j < |FirstSeen(ids)| ==> |Group(ids, FirstSeen(ids)[j])| > 0
  {
    forall j | 0 <= j < |FirstSeen(ids)|
      ensures |Group(ids, FirstSeen(ids)[j])| > 0
    {
      FirstSeenIs(ids);
      assert FirstSeen(ids)[j] in FirstSeen(ids);
      var r :| 0 <= r < |ids| && ids[r] == FirstSeen(ids)[j];
      MembersAre(ids, FirstSeen(ids)[j], |ids|);
      assert r in Group(ids, FirstSeen(ids)[j]);
    }
  }

  /** The topology was produced by the parser. */
  ghost predicate Parsed(t: Topology) {
    ParseTopology(t.nodeIds, |t.nodeIds|) == Ok(t)
  }

  /** The first group, from group `j` on, whose first rank is on node `id`. */
  function FindGroup(t: Topology, id: int, j: nat): Option<seq<nat>>
    requires forall g :: g in t.nodeGroups ==> |g| > 0 && g[0] < |t.nodeIds|
    decreases |t.nodeGroups| - j
  {
    if j >= |t.nodeGroups| then None
    else if t.nodeIds[t.nodeGroups[j][0]] == id then Some(t.nodeGroups[j])
    else FindGroup(t, id, j + 1)
  }

  /** The group holding a rank. */
  function GroupForRank(t: Topology, rank: int): Result<seq<nat>>
    requires forall g :: g in t.nodeGroups ==> |g| > 0 && g[0] < |t.nodeIds|
  {
    if rank < 0 || rank >= |t.nodeIds| then Err("rank must be within world_size")
    else
      match FindGroup(t, t.nodeIds[rank], 0)
      case None => Err("no group holds the rank")
      case Some(g) => Ok(g)
  }

  lemma {:induction false} ParsedGroups(t: Topology)
    requires Parsed(t)
    ensures forall g :: g in t.nodeGroups ==> |g| > 0 && g[0] < |t.nodeIds|
    ensures |t.nodeGroups| == |t.leaders| == |FirstSeen(t.nodeIds)|
    ensures forall j :: 0 <= j < |t.nodeGroups| ==>
      && t.nodeGroups[j] == Group(t.nodeIds, FirstSeen(t.nodeIds)[j])
      && |t.nodeGroups[j]| > 0 && t.leaders[j] == t.nodeGroups[j][0]
  {
    GroupsNotEmpty(t.nodeIds);
    forall j | 0 <= j < |t.nodeGroups|
      ensures |t.nodeGroups[j]| > 0 && t.nodeGroups[j][0] < |t.nodeIds|
    {
      MembersAre(t.nodeIds, FirstSeen(t.nodeIds)[j], |t.nodeIds|);
      assert t.nodeGroups[j] == Group(t.nodeIds, FirstSeen(t.nodeIds)[j]);
      assert t.nodeGroups[j][0] in t.nodeGroups[j];
    }
  }

  /** The groups partition the ranks: each rank is in exactly one group and occurs there once; two
      ranks share a group exactly when they share a node id. */
  lemma {:induction false} GroupsPartition(t: Topology, r: nat, q: nat)
    requires Parsed(t) && r < |t.nodeIds| && q < |t.nodeIds|
    ensures exists j :: 0 <= j < |t.nodeGroups| && r in t.nodeGroups[j]
    ensures forall i, j :: 0 <= i < |t.nodeGroups| && 0 <= j < |t.nodeGroups|
                           && r in t.nodeGroups[i] && q in t.nodeGroups[j] ==>
                             (i == j <==> t.nodeIds[r] == t.nodeIds[q])
    ensures forall i, a, b :: 0 <= i < |t.nodeGroups| && 0 <= a < b < |t.nodeGroups[i]| ==>
                                t.nodeGroups[i][a] < t.nodeGroups[i][b] < |t.nodeIds|
  {
    ParsedGroups(t);
    var ids, ordered := t.nodeIds, FirstSeen(t.nodeIds);
    FirstSeenIs(ids);
    forall j | 0 <= j < |ordered|
      ensures forall p: nat :: p in t.nodeGroups[j] <==> p < |ids| && ids[p] == ordered[j]
      ensures forall a, b :: 0 <= a < b < |t.nodeGroups[j]| ==> t.nodeGroups[j][a] < t.nodeGroups[j][b] < |ids|
    {
      MembersAre(ids, ordered[j], |ids|);
      forall b | 0 <= b < |t.nodeGroups[j]|
        ensures t.nodeGroups[j][b] < |ids|
      {
        assert t.nodeGroups[j][b] in t.nodeGroups[j];
      }
    }
    assert ids[r] in ids;
    var k :| 0 <= k < |ordered| && ordered[k] == ids[r];
    assert r in t.nodeGroups[k];
  }

  /** Before any rank on the node of group `j` there is one on the node of every earlier group. */
  lemma {:induction false} FirstSeenAscends(ids: seq<int>, i: nat, j: nat, r: nat) returns (q: nat)
    requires i < j < |FirstSeen(ids)| && r < |ids| && ids[r] == FirstSeen(ids)[j]
    ensures q < r && ids[q] == FirstSeen(ids)[i]
  {
    var n := |ids| - 1;
    var front := ids[..n];
    FirstSeenIs(front);
    FirstSeenIs(ids);
    if j < |FirstSeen(front)| && r < n {
      q := FirstSeenAscends(front, i, j, r);
    } else {
      assert FirstSeen(ids)[i] == FirstSeen(front)[i] && FirstSeen(front)[i] in FirstSeen(front);
      q :| 0 <= q < n && front[q] == FirstSeen(front)[i];
      assert r == n;
    }
  }

  /** Groups are listed by their leaders, which ascend; each is the least rank of its group. */
  lemma {:induction false} LeadersAscend(t: Topology, i: nat, j: nat)
    requires Parsed(t) && i < j < |t.leaders|
    ensures t.leaders[i] < t.leaders[j]
  {
    ParsedGroups(t);
    var ids := t.nodeIds;
    var a, b := Group(ids, FirstSeen(ids)[i]), Group(ids, FirstSeen(ids)[j]);
    MembersAre(ids, FirstSeen(ids)[i], |ids|);
    MembersAre(ids, FirstSeen(ids)[j], |ids|);
    assert b[0] in b;
    var q := FirstSeenAscends(ids, i, j, b[0]);
    assert q in a;
    var k :| 0 <= k < |a| && a[k] == q;
    assert a[0] <= a[k];
  }

  lemma {:induction false} FindGroupFinds(t: Topology, id: int, j: nat)
    requires Parsed(t) && j <= |t.nodeGroups|
    requires exists k :: j <= k < |t.nodeGroups| && FirstSeen(t.nodeIds)[k] == id
    ensures forall g :: g in t.nodeGroups ==> |g| > 0 && g[0] < |t.nodeIds|
    ensures FindGroup(t, id, j) == Some(Group(t.nodeIds, id))
    decreases |t.nodeGroups| - j
  {
    ParsedGroups(t);
    var g := t.nodeGroups[j];
    assert g == Group(t.nodeIds, FirstSeen(t.nodeIds)[j]);
    MembersAre(t.nodeIds, FirstSeen(t.nodeIds)[j], |t.nodeIds|);
    assert g[0] in g;
    if FirstSeen(t.nodeIds)[j] != id {
      FindGroupFinds(t, id, j + 1);
    }
  }

  /** Every rank finds its own group, and the group's first rank is its least. */
  lemma {:induction false} GroupForRankIsOwn(t: Topology, rank: nat)
    requires Parsed(t) && rank < |t.nodeIds|
    ensures forall g :: g in t.nodeGroups ==> |g| > 0 && g[0] < |t.nodeIds|
    ensures GroupForRank(t, rank).Ok?
    ensures var g := GroupForRank(t, rank).value;
            && rank in g && |g| > 0 && g[0] in t.leaders
            && (forall q: nat :: q in g <==> q < |t.nodeIds| && t.nodeIds[q] == t.nodeIds[rank])
            && (forall q :: q in g ==> g[0] <= q)
            && g == Group(t.nodeIds, t.nodeIds[rank])
  {
    ParsedGroups(t);
    var ids := t.nodeIds;
    FirstSeenIs(ids);
    assert ids[rank] in ids;
    var k :| 0 <= k < |FirstSeen(ids)| && FirstSeen(ids)[k] == ids[rank];
    FindGroupFinds(t, ids[rank], 0);
    MembersAre(ids, ids[rank], |ids|);
    assert t.leaders[k] == Group(ids, ids[rank])[0];
  }

  // ---------------------------------------------------------------------------
  // The text form.

  const PREFIX: string := "node_ids="

  predicate IsDigit(c: char) {
    '0' <= c <= '9'
  }

  function DigitValue(c: char): nat
    requires IsDigit(c)
  {
    c as int - '0' as int
  }

  function Strip(s: string): string {
    if s != [] && IsSpace(s[0]) then Strip(s[1..])
    else if s != [] && IsSpace(s[|s| - 1]) then Strip(s[..|s| - 1])
    else s
  }

  /** Digits with single underscores between them. */
  function Digits(s: string): Option<nat> {
    if s == [] || !IsDigit(s[|s| - 1]) then None
    else
      var n := |s| - 1;
      var d := DigitValue(s[n]);
      if n == 0 then Some(d)
      else
        match Digits(if s[n - 1] == '_' then s[..n - 1] else s[..n])
        case None => None
        case Some(high) => Some(10 * high + d)
  }

  function Signed(negative: bool, n: int): int {
    if negative then -n else n
  }

  function ParseInt(text: string): Option<int> {
    var s := Strip(text);
    var signed := s != [] && (s[0] == '-' || s[0] == '+');
    match Digits(if signed then s[1..] else s)
    case None => None
    case Some(n) => Some(Signed(signed && s[0] == '-', n))
  }

  /** The pieces between commas; there is always one. */
  function Split(s: string): (parts: seq<string>)
    ensures parts != []
  {
    if s == [] then [[]]
    else
      var rest := Split(s[1..]);
      if s[0] == ',' then [[]] + rest else [[s[0]] + rest[0]] + rest[1..]
  }

  function ParseInts(parts: seq<string>): Option<seq<int>> {
    if parts == [] then Some([])
    else
      match (ParseInt(parts[0]), ParseInts(parts[1..]))
      case (Some(id), Some(ids)) => Some([id] + ids)
      case _ => None
  }

  /** Parse a whole signature. */
  function ParseSignature(signature: string, worldSize: int): Result<Topology> {
    if worldSize <= 0 then Err("world_size must be positive")
    else if !(PREFIX <= signature) then Err("topology signature must use node_ids=<comma-separated ids>")
    else
      match ParseInts(Split(signature[|PREFIX|..]))
      case None => Err("topology node ids must be integers")
      case Some(ids) => ParseTopology(ids, worldSize)
  }

  function PrintNat(n: nat): (s: string)
    ensures s != []
  {
    var digit := [('0' as int + n % 10) as char];
    if n < 10 then digit else PrintNat(n / 10) + digit
  }

  function PrintInt(i: int): string {
    if i < 0 then "-" + PrintNat(-i) else PrintNat(i)
  }

  function PrintInts(ids: seq<int>): string
    requires ids != []
  {
    if |ids| == 1 then PrintInt(ids[0]) else PrintInt(ids[0]) + "," + PrintInts(ids[1..])
  }

  lemma {:induction false} PrintedDigits(n: nat)
    ensures forall c :: c in PrintNat(n) ==> IsDigit(c)
    ensures Digits(PrintNat(n)) == Some(n)
  {
    if n >= 10 {
      PrintedDigits(n / 10);
      var s := PrintNat(n);
      var front := s[..|s| - 1];
      assert front == PrintNat(n / 10);
      assert IsDigit(front[|front| - 1]);
    }
  }

  lemma StripNothing(s: string)
    requires s != [] && !IsSpace(s[0]) && !IsSpace(s[|s| - 1])
    ensures Strip(s) == s
  {
  }

  lemma {:induction false} ParsePrinted(i: int)
    ensures ParseInt(PrintInt(i)) == Some(i) && ',' !in PrintInt(i)
  {
    var n := if i < 0 then -i else i;
    PrintedDigits(n);
    var digits, s := PrintNat(n), PrintInt(i);
    assert IsDigit(digits[0]) && IsDigit(digits[|digits| - 1]);
    assert s == if i < 0 then "-" + digits else digits;
    assert i < 0 ==> s[1..] == digits;
    StripNothing(s);
    hide Strip, Digits, PrintNat;
  }

  lemma {:induction false} StripSpaces(left: string, s: string, right: string)
    requires s != [] && !IsSpace(s[0]) && !IsSpace(s[|s| - 1])
    requires (forall c :: c in left ==> IsSpace(c)) && (forall c :: c in right ==> IsSpace(c))
    ensures Strip(left + s + right) == s
    decreases |left|, |right|
  {
    var text := left + s + right;
    if left != [] {
      assert text[1..] == left[1..] + s + right;
      StripSpaces(left[1..], s, right);
    } else if right != [] {
      assert text[..|text| - 1] == left + s + right[..|right| - 1];
      StripSpaces(left, s, right[..|right| - 1]);
    } else {
      assert text == s;
      StripNothing(s);
    }
  }

  /** Other spellings of an id: spaces around it, a plus sign before it, single underscores between its digits. */
  lemma {:induction false} SpacesAreStripped(i: int, left: string, right: string)
    requires (forall c :: c in left ==> IsSpace(c)) && (forall c :: c in right ==> IsSpace(c))
    ensures ParseInt(left + PrintInt(i) + right) == Some(i)
  {
    var s := PrintInt(i);
    var digits := PrintNat(if i < 0 then -i else i);
    PrintedDigits(if i < 0 then -i else i);
    assert IsDigit(digits[0]) && IsDigit(digits[|digits| - 1]);
    assert s[0] == (if i < 0 then '-' else digits[0]) && s[|s| - 1] == digits[|digits| - 1];
    StripSpaces(left, s, right);
    StripNothing(s);
    ParsePrinted(i);
    hide Strip, Digits, PrintNat;
  }

  lemma {:induction false} PlusIsIgnored(n: nat)
    ensures ParseInt("+" + PrintNat(n)) == Some(n)
  {
    PrintedDigits(n);
    var digits := PrintNat(n);
    assert IsDigit(digits[|digits| - 1]);
    StripNothing("+" + digits);
    assert ("+" + digits)[1..] == digits;
    hide Strip, Digits, PrintNat;
  }

  lemma {:induction false} UnderscoreIsIgnored(high: string, low: char)
    requires Digits(high).Some? && IsDigit(low)
    ensures Digits(high + "_" + [low]) == Digits(high + [low])
  {
    var a, b := high + "_" + [low], high + [low];
    assert a[..|a| - 2] == high && b[..|b| - 1] == high && IsDigit(high[|high| - 1]);
  }

  lemma {:induction false} SplitLast(part: string)
    requires ',' !in part
    ensures Split(part) == [part]
  {
    if part != [] {
      SplitLast(part[1..]);
      assert [part[0]] + part[1..] == part;
    }
  }

  lemma {:induction false} SplitFirst(part: string, rest: string)
    requires ',' !in part
    ensures Split(part + "," + rest) == [part] + Split(rest)
  {
    var s := part + "," + rest;
    if part == [] {
      assert s[1..] == rest;
    } else {
      assert s[1..] == part[1..] + "," + rest;
      SplitFirst(part[1..], rest);
      assert [part[0]] + part[1..] == part;
    }
  }

  lemma ParsePart(part: string, parts: seq<string>, id: int, ids: seq<int>)
    requires ParseInt(part) == Some(id) && ParseInts(parts) == Some(ids)
    ensures ParseInts([part] + parts) == Some([id] + ids)
  {
    hide ParseInt;
    assert ([part] + parts)[1..] == parts;
  }

  lemma {:induction false} PrintedParts(ids: seq<int>)
    requires ids != []
    ensures ParseInts(Split(PrintInts(ids))) == Some(ids)
  {
    var first, rest := ids[0], ids[1..];
    assert ids == [first] + rest;
    ParsePrinted(first);
    hide ParseInt, PrintInt, Split, ParseInts;
    if rest == [] {
      SplitLast(PrintInt(first));
      ParseNone();
      ParsePart(PrintInt(first), [], first, []);
      assert [PrintInt(first)] + [] == [PrintInt(first)];
    } else {
      PrintedParts(rest);
      SplitFirst(PrintInt(first), PrintInts(rest));
      ParsePart(PrintInt(first), Split(PrintInts(rest)), first, rest);
    }
  }

  lemma ParseNone()
    ensures ParseInts([]) == Some([])
  {
  }

  /** Reading back the signature of any ids is the same as starting from the ids: a list of one
      non-negative id per rank is accepted with exactly these ids, and any other is refused. */
  lemma {:induction false} SignatureRoundTrip(ids: seq<int>, worldSize: int)
    requires ids != []
    ensures ParseSignature(PREFIX + PrintInts(ids), worldSize) == ParseTopology(ids, worldSize)
    ensures ParseSignature(PREFIX + PrintInts(ids), worldSize).Ok? <==>
              worldSize == |ids| && forall i :: 0 <= i < |ids| ==> 0 <= ids[i]
    ensures var r := ParseSignature(PREFIX + PrintInts(ids), worldSize);
            r.Ok? ==> r.value.nodeIds == ids && Parsed(r.value)
  {
    var signature := PREFIX + PrintInts(ids);
    assert signature[|PREFIX|..] == PrintInts(ids);
    PrintedParts(ids);
  }
}
