/** Finding a workload's pod UID and container ID in its cgroup paths. */
module ContainerInfo {
  import opened Types

  /** The character classes of the two patterns. */
  predicate Hex(c: char) {
    '0' <= c <= '9' || 'a' <= c <= 'f' || 'A' <= c <= 'F'
  }

  predicate Word(c: char) {
    '0' <= c <= '9' || 'a' <= c <= 'z' || 'A' <= c <= 'Z' || c == '_'
  }

  /** In codes: the digits 48 to 57, the capitals from 65, the small letters from 97, and the underscore, 95. */
  lemma CharacterClasses(c: char)
    ensures var n := c as int;
            && (Hex(c) <==> 48 <= n <= 57 || 65 <= n <= 70 || 97 <= n <= 102)
            && (Word(c) <==> 48 <= n <= 57 || 65 <= n <= 90 || 97 <= n <= 122 || n == 95)
  {
  }

  /** A container ID is 64 hex digits without a letter, digit or underscore on either side. */
  lemma ContainerExactly(s: string, i: nat)
    ensures ContainerAt(s, i) <==>
      && i + 64 <= |s| && (forall k :: i <= k < i + 64 ==> Hex(s[k]))
      && (i > 0 ==> !Word(s[i - 1])) && (i + 64 < |s| ==> !Word(s[i + 64]))
  {
    if i + 64 <= |s| && forall k :: i <= k < i + 64 ==> Hex(s[k]) {
      assert Hex(s[i]) && Hex(s[i + 63]);
    }
  }

  /** After "pod" come 36 characters: hex digits, but for dashes or underscores at the 9th, 14th, 19th and 24th. */
  predicate GroupsAt(s: string, i: nat)
    requires i + 39 <= |s|
  {
    forall j :: i + 3 <= j < i + 39 ==>
        if j == i + 11 || j == i + 16 || j == i + 21 || j == i + 26 then s[j] == '-' || s[j] == '_' else Hex(s[j])
  }

  /** A pod UID is those, likewise on their own. */
  lemma PodExactly(s: string, i: nat)
    ensures PodAt(s, i) <==>
      && i + 39 <= |s| && s[i] == 'p' && s[i + 1] == 'o' && s[i + 2] == 'd' && GroupsAt(s, i)
      && (i > 0 ==> !Word(s[i - 1])) && (i + 39 < |s| ==> !Word(s[i + 39]))
  {
    if i + 39 <= |s| {
      var u := s[i + 3..i + 39];
      assert forall k :: 0 <= k < 36 ==> u[k] == s[i + 3 + k];
      assert forall j :: i + 3 <= j < i + 39 ==> s[j] == u[j - i - 3];
      assert s[i..i + 3] == [s[i], s[i + 1], s[i + 2]];
      assert UID(u) <==> GroupsAt(s, i);
      assert UID(u) ==> Hex(u[35]) && Word(s[i + 38]);
    }
  }

  predicate Boundary(s: string, i: nat)
    requires i <= |s|
  {
    (i > 0 && Word(s[i - 1])) != (i < |s| && Word(s[i]))
  }

  const ID_LENGTH := 64
  const UID_LENGTH := 36

  /** A container ID: 64 hex digits on their own. */
  predicate ContainerAt(s: string, i: nat) {
    && i + ID_LENGTH <= |s| && (forall k :: i <= k < i + ID_LENGTH ==> Hex(s[k]))
    && Boundary(s, i) && Boundary(s, i + ID_LENGTH)
  }

  /** A UUID, its groups set apart by dashes or, as systemd has it, by underscores. */
  predicate UID(u: string) {
    forall k :: 0 <= k < |u| ==>
        if k == 8 || k == 13 || k == 18 || k == 23 then u[k] == '-' || u[k] == '_' else Hex(u[k])
  }

  predicate PodAt(s: string, i: nat) {
    && i + 3 + UID_LENGTH <= |s| && s[i..i + 3] == "pod" && UID(s[i + 3..i + 3 + UID_LENGTH])
    && Boundary(s, i) && Boundary(s, i + 3 + UID_LENGTH)
  }

  /** The leftmost match at i or after. */
  function Leftmost(s: string, at: (string, nat) -> bool, i: nat): (r: Option<nat>)
    requires i <= |s|
    ensures r.Some? ==> i <= r.value <= |s| && at(s, r.value) && forall k :: i <= k < r.value ==> !at(s, k)
    ensures r.None? ==> forall k :: i <= k <= |s| ==> !at(s, k)
    decreases |s| - i
  {
    if at(s, i) then Some(i) else if i == |s| then None else Leftmost(s, at, i + 1)
  }

  function FindContainer(s: string): (r: Option<nat>)
    ensures r.Some? ==> r.value + ID_LENGTH <= |s|
  {
    Leftmost(s, ContainerAt, 0)
  }

  function UnderToDash(s: string): string {
    seq(|s|, i requires 0 <= i < |s| => if s[i] == '_' then '-' else s[i])
  }

  function FindPodUID(s: string): (r: Option<string>)
    ensures r.Some? ==> |r.value| == UID_LENGTH && '_' !in r.value
  {
    var i := Leftmost(s, PodAt, 0);
    if i.None? then None else Some(UnderToDash(s[i.value + 3..i.value + 3 + UID_LENGTH]))
  }

  /** What is found is the leftmost match, if there is one. */
  lemma FindsExactly(s: string, i: nat)
    ensures FindContainer(s) == Some(i) <==> ContainerAt(s, i) && forall k :: 0 <= k < i ==> !ContainerAt(s, k)
    ensures FindContainer(s).None? <==> forall k :: 0 <= k <= |s| ==> !ContainerAt(s, k)
    ensures FindPodUID(s).None? <==> forall k :: 0 <= k <= |s| ==> !PodAt(s, k)
  {
  }

  /** Where the last path segment starts. */
  function AfterLastSlash(p: string): (k: nat)
    ensures k <= |p| && (k > 0 ==> p[k - 1] == '/') && forall i :: k <= i < |p| ==> p[i] != '/'
  {
    if p == "" then 0 else if p[|p| - 1] == '/' then |p| else AfterLastSlash(p[..|p| - 1])
  }

  /** The last segment of a path, and what comes before it and its slash. */
  function StripSegment(p: string): (r: (string, string))
    ensures r.1 != "" ==> |r.0| < |p|
  {
    var k := AfterLastSlash(p);
    (if k > 0 then p[..k - 1] else "", p[k..])
  }

  /** The segments from the last one back, up to an empty one. */
  function Walk(p: string): seq<string>
    decreases |p|
  {
    var (rest, segment) := StripSegment(p);
    if segment == "" then [] else [segment] + Walk(rest)
  }

  function Onto(s: string, segments: seq<string>): seq<string> {
    if s == "" then segments else [s] + segments
  }

  /** The segments still to walk from here. */
  function Left(rest: string, segment: string): seq<string> {
    if segment == "" then [] else [segment] + Walk(rest)
  }

  /** The first container ID in these segments, and what is left to search for the pod UID. */
  function ScanContainer(segments: seq<string>): (r: Option<(string, seq<string>)>)
    ensures r.Some? ==> |r.value.0| == ID_LENGTH
  {
    if segments == [] then None
    else
      var s, found := segments[0], FindContainer(segments[0]);
      if found.None? then ScanContainer(segments[1..])
      else Some((s[found.value..found.value + ID_LENGTH], Onto(s[..found.value], segments[1..])))
  }

  lemma ScanHere(segment: string, rest: seq<string>)
    ensures var found := FindContainer(segment);
            ScanContainer([segment] + rest) ==
              if found.None? then ScanContainer(rest)
              else Some((segment[found.value..found.value + ID_LENGTH], Onto(segment[..found.value], rest)))
  {
    assert ([segment] + rest)[1..] == rest;
  }

  function ScanPodUID(segments: seq<string>): string {
    if segments == [] then ""
    else if FindPodUID(segments[0]).Some? then FindPodUID(segments[0]).value
    else ScanPodUID(segments[1..])
  }

  /** What a path yields; "" is nothing. */
  datatype Found = Found(podUID: string, containerID: string)

  function Extracted(segments: seq<string>, extractPodUID: bool): (f: Found)
    ensures f.podUID != "" ==> f.containerID != "" && extractPodUID
  {
    var c := ScanContainer(segments);
    if c.None? then Found("", "")
    else Found(if extractPodUID then ScanPodUID(c.value.1) else "", c.value.0)
  }

  /** What the extractor makes of one more path, given what it has; None is a conflict. */
  function MergeOne(e: Found, f: Found): Option<Found> {
    if e.podUID != "" && f.podUID == "" then Some(e)
    else if e.podUID == "" && f.podUID != "" then Some(f)
    else if f.podUID != e.podUID then None
    else if e.containerID != "" && f.containerID != e.containerID then None
    else Some(f)
  }

  function Merge(fs: seq<Found>): Option<Found> {
    if fs == [] then Some(Found("", ""))
    else
      var e := Merge(fs[..|fs| - 1]);
      if e.None? then None else MergeOne(e.value, fs[|fs| - 1])
  }

  function ExtractedAll(paths: seq<string>, extractPodUID: bool): (fs: seq<Found>)
    ensures |fs| == |paths| && forall i :: 0 <= i < |fs| ==> fs[i] == Extracted(Walk(paths[i]), extractPodUID)
  {
    seq(|paths|, i requires 0 <= i < |paths| => Extracted(Walk(paths[i]), extractPodUID))
  }

  class Extractor {
    var podUID: string
    var containerID: string
    const extractPodUID: bool

    constructor (extractPodUID: bool)
      ensures this.extractPodUID == extractPodUID && View() == Found("", "")
    {
      this.extractPodUID, podUID, containerID := extractPodUID, "", "";
    }

    function View(): Found reads this {
      Found(podUID, containerID)
    }

    /** false when the path conflicts with those before; an error ends the search. */
    method Extract(path: string) returns (ok: bool)
      modifies this
      ensures var r := MergeOne(old(View()), Extracted(Walk(path), extractPodUID));
              ok == r.Some? && (ok ==> View() == r.value)
    {
      var pod, container := ExtractOne(path);
      if podUID != "" && pod == "" {
        return true;
      }
      if podUID == "" && pod != "" {
        podUID, containerID := pod, container;
      }
      if pod != "" && podUID != "" && pod != podUID {
        return false;
      }
      if containerID != "" && container != containerID {
        return false;
      }
      containerID := container;
      podUID := pod;
      ok := true;
    }

    method ExtractOne(path: string) returns (pod: string, container: string)
      ensures Found(pod, container) == Extracted(Walk(path), extractPodUID)
    {
      var rest, segment;
      container, rest, segment := WalkForContainer(path);
      if container == "" || !extractPodUID {
        return "", container;
      }
      if segment == "" {
        rest, segment := StripNext(rest);
      }
      pod := WalkForPodUID(rest, segment);
    }

    /** Walks back through the path for the container ID, and cuts it and what follows it off. */
    static method WalkForContainer(path: string) returns (container: string, rest: string, segment: string)
      ensures var found := ScanContainer(Walk(path));
              if found.None? then container == "" else found.value == (container, Onto(segment, Walk(rest)))
    {
      ghost var found := ScanContainer(Walk(path));
      rest, segment := StripNext(path);
      while segment != ""
        invariant found == ScanContainer(Left(rest, segment))
        decreases |rest| + |segment|
      {
        ScanHere(segment, Walk(rest));
        var i := FindContainer(segment);
        if i.Some? {
          return segment[i.value..i.value + ID_LENGTH], rest, segment[..i.value];
        }
        rest, segment := StripNext(rest);
      }
      container := "";
    }

    /** Walks on through what is left for the pod UID. */
    static method WalkForPodUID(from: string, first: string) returns (pod: string)
      ensures pod == ScanPodUID(Left(from, first))
    {
      var rest, segment := from, first;
      while segment != ""
        invariant ScanPodUID(Left(from, first)) == ScanPodUID(Left(rest, segment))
        decreases |rest| + |segment|
      {
        assert Left(rest, segment)[1..] == Walk(rest);
        var m := FindPodUID(segment);
        if m.Some? {
          return m.value;
        }
        rest, segment := StripNext(rest);
      }
      pod := "";
    }

    static method StripNext(p: string) returns (rest: string, segment: string)
      ensures Walk(p) == Left(rest, segment) && |rest| + |segment| <= |p|
    {
      var r := StripSegment(p);
      rest, segment := r.0, r.1;
    }
  }

  /** All paths of a process, in the order the kernel lists them. */
  method ExtractAll(paths: seq<string>, extractPodUID: bool) returns (r: Option<Found>)
    ensures r == Merge(ExtractedAll(paths, extractPodUID))
  {
    var ex := new Extractor(extractPodUID);
    ghost var all := ExtractedAll(paths, extractPodUID);
    for i := 0 to |paths|
      invariant ex.extractPodUID == extractPodUID && Merge(all[..i]) == Some(ex.View())
    {
      MergeNext(all, i);
      var ok := ex.Extract(paths[i]);
      if !ok {
        MergeStaysFailed(all, i + 1);
        return None;
      }
    }
    assert all[..|paths|] == all;
    r := Some(ex.View());
  }

  lemma MergeNext(fs: seq<Found>, i: nat)
    requires i < |fs| && Merge(fs[..i]).Some?
    ensures Merge(fs[..i + 1]) == MergeOne(Merge(fs[..i]).value, fs[i])
  {
    assert fs[..i + 1][..i] == fs[..i];
  }

  lemma {:induction false} MergeStaysFailed(fs: seq<Found>, n: nat)
    requires n <= |fs| && Merge(fs[..n]).None?
    ensures Merge(fs).None?
    decreases |fs| - n
  {
    if n == |fs| {
      assert fs[..n] == fs;
    } else {
      assert fs[..n + 1][..n] == fs[..n];
      MergeStaysFailed(fs, n + 1);
    }
  }

  /** The path of these segments, each without a slash, under another path. */
  function Under(path: string, segments: seq<string>): string {
    if segments == [] then path else Under(path, segments[..|segments| - 1]) + "/" + segments[|segments| - 1]
  }

  function Reversed<T>(s: seq<T>): seq<T> {
    if s == [] then [] else [s[|s| - 1]] + Reversed(s[..|s| - 1])
  }

  lemma StripLast(p: string, segment: string)
    requires '/' !in segment
    ensures StripSegment(p + "/" + segment) == (p, segment)
  {
    var whole := p + "/" + segment;
    var k := AfterLastSlash(whole);
    assert whole[|p|] == '/';
    assert whole[..|p|] == p && whole[|p| + 1..] == segment;
  }

  predicate Segments(segments: seq<string>) {
    forall s :: s in segments ==> s != "" && '/' !in s
  }

  lemma WalkLast(p: string, segment: string)
    requires segment != "" && '/' !in segment
    ensures Walk(p + "/" + segment) == [segment] + Walk(p)
  {
    StripLast(p, segment);
  }

  lemma OneBefore(x: string, a: seq<string>, b: seq<string>)
    ensures [x] + (a + b) == [x] + a + b && [] + b == b
  {
  }

  /** The walk visits the segments of a path last to first, and then those of the path it is under. */
  lemma {:induction false} WalkIsReversed(path: string, segments: seq<string>)
    requires Segments(segments)
    ensures Walk(Under(path, segments)) == Reversed(segments) + Walk(path)
  {
    if segments != [] {
      var n := |segments| - 1;
      assert segments[n] in segments && forall s :: s in segments[..n] ==> s in segments;
      WalkLast(Under(path, segments[..n]), segments[n]);
      WalkIsReversed(path, segments[..n]);
      OneBefore(segments[n], Reversed(segments[..n]), Walk(path));
    }
  }

  lemma WalkStopsAtEmpty(p: string, segment: string)
    requires segment != "" && '/' !in segment
    ensures Walk(p + "//" + segment) == [segment]
  {
    assert p + "//" + segment == (p + "/") + "/" + segment;
    StripLast(p + "/", segment);
    EndsEmpty(p);
  }

  lemma EndsEmpty(p: string)
    ensures Walk(p + "/") == []
  {
    StripLast(p, "");
    assert p + "/" + "" == p + "/";
  }

  /** The container ID comes from the first segment walked that has one, and nothing is found if and only if none
      has. */
  lemma {:induction false} ContainerIsFirst(segments: seq<string>)
    ensures var found := ScanContainer(segments);
            if found.None? then forall s :: s in segments ==> FindContainer(s).None?
            else exists k :: 0 <= k < |segments| && HasContainer(segments, k, found.value.0, found.value.1)
  {
    if segments != [] && FindContainer(segments[0]).None? {
      ContainerIsFirst(segments[1..]);
      var found := ScanContainer(segments);
      if found.Some? {
        var k :| 0 <= k < |segments| - 1 && HasContainer(segments[1..], k, found.value.0, found.value.1);
        assert HasContainer(segments, k + 1, found.value.0, found.value.1);
      }
    } else if segments != [] {
      assert HasContainer(segments, 0, ScanContainer(segments).value.0, ScanContainer(segments).value.1);
    }
  }

  /** Likewise the pod UID, from what is left before the container ID. */
  lemma {:induction false} PodIsFirst(segments: seq<string>)
    ensures var pod := ScanPodUID(segments);
            if pod == "" then forall s :: s in segments ==> FindPodUID(s).None?
            else exists k :: 0 <= k < |segments| && HasPod(segments, k, pod)
  {
    if segments != [] && FindPodUID(segments[0]).None? {
      PodIsFirst(segments[1..]);
      var pod := ScanPodUID(segments);
      if pod != "" {
        var k :| 0 <= k < |segments| - 1 && HasPod(segments[1..], k, pod);
        assert HasPod(segments, k + 1, pod);
      }
    } else if segments != [] {
      assert HasPod(segments, 0, ScanPodUID(segments));
    }
  }

  predicate HasPod(segments: seq<string>, k: nat, pod: string)
    requires k < |segments|
  {
    (forall j :: 0 <= j < k ==> FindPodUID(segments[j]).None?) && FindPodUID(segments[k]) == Some(pod)
  }

  predicate HasContainer(segments: seq<string>, k: nat, id: string, left: seq<string>)
    requires k < |segments|
  {
    && (forall j :: 0 <= j < k ==> FindContainer(segments[j]).None?)
    && var i := FindContainer(segments[k]);
       i.Some? && id == segments[k][i.value..i.value + ID_LENGTH] &&
           left == Onto(segments[k][..i.value], segments[k + 1..])
  }

  lemma {:induction false} ReversedBehind<T>(a: seq<T>, b: seq<T>)
    ensures Reversed(a + b) == Reversed(b) + Reversed(a)
    ensures forall x :: x in Reversed(b) <==> x in b
    decreases |b|
  {
    if b == [] {
      assert a + b == a;
    } else {
      var n := |b| - 1;
      assert b == b[..n] + [b[n]] && (a + b)[..|a + b| - 1] == a + b[..n];
      ReversedBehind(a, b[..n]);
    }
  }

  lemma {:induction false} ScanSkips(a: seq<string>, b: seq<string>)
    requires forall s :: s in a ==> FindContainer(s).None?
    ensures ScanContainer(a + b) == ScanContainer(b)
  {
    if a == [] {
      assert a + b == b;
    } else {
      assert (a + b)[0] == a[0] && (a + b)[1..] == a[1..] + b;
      ScanSkips(a[1..], b);
    }
  }

  lemma {:induction false} PodScanSkips(a: seq<string>, b: seq<string>)
    requires forall s :: s in a ==> FindPodUID(s).None?
    ensures ScanPodUID(a + b) == ScanPodUID(b)
  {
    if a == [] {
      assert a + b == b;
    } else {
      assert (a + b)[0] == a[0] && (a + b)[1..] == a[1..] + b;
      PodScanSkips(a[1..], b);
    }
  }

  lemma ExtractsHere(skipped: seq<string>, segment: string, rest: seq<string>)
    requires FindContainer(segment).Some? && forall s :: s in skipped ==> FindContainer(s).None?
    ensures var i := FindContainer(segment).value;
            var pod := FindPodUID(segment[..i]);
            && Extracted(skipped + ([segment] + rest), false) == Found("", segment[i..i + 64])
            && Extracted(skipped + ([segment] + rest), true) ==
               Found(if pod.Some? then pod.value else ScanPodUID(rest), segment[i..i + 64])
  {
    var front := segment[..FindContainer(segment).value];
    ScanSkips(skipped, [segment] + rest);
    ScanHere(segment, rest);
    if front != "" {
      assert ([front] + rest)[1..] == rest;
    } else {
      assert FindPodUID(front).None?;
    }
  }

  lemma WalkSplits(path: string, before: seq<string>, segment: string, tail: seq<string>)
    requires Segments(before + [segment] + tail)
    ensures Walk(Under(path, before + [segment] + tail)) ==
            Reversed(tail) + ([segment] + (Reversed(before) + Walk(path)))
  {
    WalkIsReversed(path, before + [segment] + tail);
    ReversedBehind(before + [segment], tail);
    ReversedBehind(before, [segment]);
    ThreeParts(Reversed(tail), segment, Reversed(before), Walk(path));
  }

  lemma ThreeParts(a: seq<string>, x: string, b: seq<string>, c: seq<string>)
    ensures a + (Reversed([x]) + b) + c == a + ([x] + (b + c))
  {
    assert [x][..0] == [];
  }

  /** The segments behind the one with the container ID have none; that one is searched for the pod UID first, then
      those before it. */
  lemma ExtractsFrom(path: string, before: seq<string>, segment: string, tail: seq<string>)
    requires Segments(before + [segment] + tail) && FindContainer(segment).Some?
    requires forall s :: s in tail ==> FindContainer(s).None?
    ensures var i := FindContainer(segment).value;
            var pod := FindPodUID(segment[..i]);
            var walk := Walk(Under(path, before + [segment] + tail));
            var earlier := ScanPodUID(Reversed(before) + Walk(path));
            && Extracted(walk, false) == Found("", segment[i..i + 64])
            && Extracted(walk, true) == Found(if pod.Some? then pod.value else earlier, segment[i..i + 64])
  {
    WalkSplits(path, before, segment, tail);
    ReversedBehind([], tail);
    ExtractsHere(Reversed(tail), segment, Reversed(before) + Walk(path));
  }

  lemma PodScanFinds(pod: string, mid: seq<string>, rest: seq<string>, u: string)
    requires FindPodUID(pod) == Some(u) && forall s :: s in mid ==> FindPodUID(s).None?
    ensures ScanPodUID(Reversed([pod] + mid) + rest) == u
  {
    ReversedBehind([pod], mid);
    assert [pod][..0] == [] && Reversed([pod]) == [pod];
    assert Reversed(mid) + [pod] + rest == Reversed(mid) + ([pod] + rest);
    PodScanSkips(Reversed(mid), [pod] + rest);
  }

  /** A path with a pod: its UID is that of the last segment before the container ID that has one. */
  lemma PodPathYields(path: string, pod: string, mid: seq<string>, segment: string, tail: seq<string>, u: string)
    requires Segments([pod] + mid + [segment] + tail) && FindPodUID(pod) == Some(u)
    requires FindContainer(segment).Some? && FindPodUID(segment[..FindContainer(segment).value]).None?
    requires (forall s :: s in mid ==> FindPodUID(s).None?) && (forall s :: s in tail ==> FindContainer(s).None?)
    ensures var i := FindContainer(segment).value;
            Extracted(Walk(Under(path, [pod] + mid + [segment] + tail)), true) == Found(u, segment[i..i + 64])
  {
    ExtractsFrom(path, [pod] + mid, segment, tail);
    PodScanFinds(pod, mid, Walk(path), u);
  }

  /** Pod UID and container ID in one segment. */
  lemma OneSegmentYields(path: string, segment: string, tail: seq<string>, u: string)
    requires Segments([segment] + tail) && FindContainer(segment).Some?
    requires FindPodUID(segment[..FindContainer(segment).value]) == Some(u)
    requires forall s :: s in tail ==> FindContainer(s).None?
    ensures var i := FindContainer(segment).value;
            Extracted(Walk(Under(path, [segment] + tail)), true) == Found(u, segment[i..i + 64])
  {
    assert [] + [segment] + tail == [segment] + tail;
    ExtractsFrom(path, [], segment, tail);
  }

  /** Without a pod there is only the container ID, and without that nothing. */
  lemma PodlessPathYields(before: seq<string>, segment: string, tail: seq<string>, extractPodUID: bool)
    requires Segments(before + [segment] + tail)
    requires forall s :: s in before ==> FindPodUID(s).None? && FindContainer(s).None?
    requires forall s :: s in tail ==> FindContainer(s).None?
    requires FindContainer(segment).Some? ==> FindPodUID(segment[..FindContainer(segment).value]).None?
    ensures Extracted(Walk(Under("", before + [segment] + tail)), extractPodUID) ==
            if FindContainer(segment).None? then Found("", "")
            else Found("", segment[FindContainer(segment).value..FindContainer(segment).value + 64])
  {
    assert StripSegment("") == ("", "") && Walk("") == [];
    ReversedBehind([], before);
    assert Reversed(before) + [] == Reversed(before);
    if FindContainer(segment).Some? {
      ExtractsFrom("", before, segment, tail);
      PodScanSkips(Reversed(before), []);
    } else {
      var all := before + [segment] + tail;
      WalkIsReversed("", all);
      ReversedBehind([], all);
      assert [] + all == all;
      ScanSkips(Reversed(all), []);
    }
  }

  /** A UUID of 36 characters after "pod", on its own, is the pod UID, with dashes whatever its groups are set apart
      by. */
  lemma PodUIDIs(front: string, uid: string, back: string)
    requires |uid| == 36 && (forall k :: 0 <= k < 36 && k !in {8, 13, 18, 23} ==> Hex(uid[k]))
    requires forall k :: k in {8, 13, 18, 23} ==> uid[k] == '-' || uid[k] == '_'
    requires (front != "" ==> !Word(front[|front| - 1])) && (back != "" ==> !Word(back[0]))
    requires forall k :: 0 <= k < |front| ==> !PodAt(front + "pod" + uid + back, k)
    ensures var u := FindPodUID(front + "pod" + uid + back);
            u.Some? && |u.value| == 36 && (forall k :: 0 <= k < 36 ==>
              u.value[k] == if k in {8, 13, 18, 23} then '-' else uid[k])
  {
    var s, i := front + "pod" + uid + back, |front|;
    assert s[i..i + 3] == "pod" && s[i + 3..i + 39] == uid;
    assert s[i] == 'p' && s[i + 38] == uid[35] && Word(uid[35]);
    assert i > 0 ==> s[i - 1] == front[i - 1];
    assert i + 39 < |s| ==> s[i + 39] == back[0];
    assert PodAt(s, i);
    assert Leftmost(s, PodAt, 0) == Some(i);
    assert forall k :: 0 <= k < 36 && k !in {8, 13, 18, 23} ==> uid[k] != '_';
  }

  lemma UnderTwo(path: string, a: string, b: string)
    ensures Under(path, [a, b]) == path + "/" + a + "/" + b
  {
    assert [a, b][..1] == [a] && [a][..0] == [];
    assert Under(path, [a]) == path + "/" + a;
  }

  lemma NoSlash(uid: string)
    requires |uid| == 36 && (forall k :: 0 <= k < 36 && k !in {8, 13, 18, 23} ==> Hex(uid[k]))
    requires forall k :: k in {8, 13, 18, 23} ==> uid[k] == '-'
    ensures Segments(["pod" + uid])
  {
    assert forall k :: 0 <= k < 36 ==> uid[k] != '/';
  }

  lemma PodNamed(uid: string)
    requires |uid| == 36 && (forall k :: 0 <= k < 36 && k !in {8, 13, 18, 23} ==> Hex(uid[k]))
    requires forall k :: k in {8, 13, 18, 23} ==> uid[k] == '-'
    ensures FindPodUID("pod" + uid) == Some(uid)
  {
    PodUIDIs("", uid, "");
    assert "" + "pod" + uid + "" == "pod" + uid;
    assert FindPodUID("pod" + uid).value == uid;
  }

  /** The ordinary Kubernetes path, under any other. */
  lemma KubernetesPathYields(path: string, uid: string, id: string)
    requires |uid| == 36 && (forall k :: 0 <= k < 36 && k !in {8, 13, 18, 23} ==> Hex(uid[k]))
    requires forall k :: k in {8, 13, 18, 23} ==> uid[k] == '-'
    requires |id| == 64 && forall k :: 0 <= k < 64 ==> Hex(id[k])
    ensures Extracted(Walk(path + "/" + ("pod" + uid) + "/" + id), true) == Found(uid, id)
  {
    var pod := "pod" + uid;
    PodNamed(uid);
    WholeID(id);
    NoSlash(uid);
    UnderTwo(path, pod, id);
    assert [pod] + [] + [id] + [] == [pod, id];
    PodPathYields(path, pod, [], id, [], uid);
    assert id[0..0 + 64] == id;
  }

  predicate NoPods(fs: seq<Found>) {
    forall f :: f in fs ==> f.podUID == ""
  }

  /** Whoever names a pod names a container. */
  predicate Paired(fs: seq<Found>) {
    forall f :: f in fs && f.podUID != "" ==> f.containerID != ""
  }

  /** All that name a pod are the same. */
  predicate PodsAgree(fs: seq<Found>) {
    forall f, g :: f in fs && g in fs && f.podUID != "" && g.podUID != "" ==> f == g
  }

  /** Once there is a container ID, it stays. */
  predicate Settles(fs: seq<Found>) {
    forall i, j :: 0 <= i < j < |fs| && fs[i].containerID != "" ==> fs[j].containerID == fs[i].containerID
  }

  /** How many come before the first that names a pod. */
  function Podless(fs: seq<Found>): (n: nat)
    ensures n <= |fs| && NoPods(fs[..n]) && (n < |fs| ==> fs[n].podUID != "")
  {
    if fs == [] then 0
    else
      var n := Podless(fs[..|fs| - 1]);
      assert fs[..|fs| - 1][..n] == fs[..n];
      if n < |fs| - 1 || fs[|fs| - 1].podUID != "" then n
      else assert fs == fs[..n] + [fs[n]]; |fs|
  }

  lemma AgreeWithOneMore(a: seq<Found>, f: Found, n: nat)
    requires n < |a| && a[n].podUID != ""
    ensures PodsAgree(a + [f]) <==> PodsAgree(a) && (f.podUID != "" ==> f == a[n])
  {
    assert a[n] in a && f in a + [f] && a[n] in a + [f];
    assert forall g :: g in a + [f] <==> g in a || g == f;
  }

  lemma SettlesWithOneMore(a: seq<Found>, f: Found)
    ensures Settles(a + [f]) <==>
            Settles(a) && (a != [] && a[|a| - 1].containerID != "" ==> f.containerID == a[|a| - 1].containerID)
  {
    var fs := a + [f];
    assert forall i :: 0 <= i < |a| ==> fs[i] == a[i];
    if Settles(fs) {
      assert forall i, j :: 0 <= i < j < |a| ==> fs[i] == a[i] && fs[j] == a[j];
      assert a != [] ==> fs[|a| - 1] == a[|a| - 1] && fs[|a|] == f;
    }
  }

  lemma PodlessWithOneMore(a: seq<Found>, f: Found)
    ensures Podless(a + [f]) == if Podless(a) < |a| || f.podUID != "" then Podless(a) else |a| + 1
    ensures Podless(a) < |a| ==> (a + [f])[..Podless(a)] == a[..Podless(a)]
  {
    assert (a + [f])[..|a|] == a;
  }

  /** The path that names the pod, or else what the last path says. */
  function Answer(fs: seq<Found>, podless: nat): Found {
    if podless < |fs| then fs[podless] else if fs == [] then Found("", "") else fs[|fs| - 1]
  }

  /** `m` is what comes of merging `fs`, whose first n name no pod. */
  ghost predicate MergedAs(fs: seq<Found>, n: nat, m: Option<Found>) {
    n <= |fs| && (m.Some? <==> PodsAgree(fs) && Settles(fs[..n])) && (m.Some? ==> m.value == Answer(fs, n))
  }

  lemma OneMoreAfterPod(a: seq<Found>, f: Found, n: nat, e: Found)
    requires n < |a| && a[n].podUID != "" && a[n].containerID != "" && MergedAs(a, n, Some(e))
    ensures MergedAs(a + [f], n, MergeOne(e, f))
  {
    AgreeWithOneMore(a, f, n);
    assert (a + [f])[..n] == a[..n];
  }

  lemma OneMoreBeforePod(a: seq<Found>, f: Found, e: Found)
    requires NoPods(a) && MergedAs(a, |a|, Some(e))
    ensures MergedAs(a + [f], if f.podUID != "" then |a| else |a| + 1, MergeOne(e, f))
  {
    SettlesWithOneMore(a, f);
    assert a[..|a|] == a && (a + [f])[..|a|] == a && (a + [f])[..|a| + 1] == a + [f];
    assert a != [] ==> a[|a| - 1] in a;
    assert forall g :: g in a + [f] <==> g in a || g == f;
  }

  /** The paths merge without a conflict if and only if all that name a pod agree and, among those listed before the
      first of them, none follows that lacks the container ID of an earlier one or has another. */
  lemma {:induction false} MergesExactly(fs: seq<Found>)
    requires Paired(fs)
    ensures Merge(fs).Some? <==> PodsAgree(fs) && Settles(fs[..Podless(fs)])
    ensures Merge(fs).Some? ==> Merge(fs).value == Answer(fs, Podless(fs))
  {
    if fs != [] {
      var a, f := fs[..|fs| - 1], fs[|fs| - 1];
      assert fs == a + [f];
      MergesExactly(a);
      OneMore(a, f, Podless(a), Merge(a));
      PodlessWithOneMore(a, f);
    }
  }

  lemma OneMore(a: seq<Found>, f: Found, n: nat, m: Option<Found>)
    requires Paired(a) && MergedAs(a, n, m) && NoPods(a[..n]) && (n < |a| ==> a[n].podUID != "")
    ensures MergedAs(a + [f], if n < |a| || f.podUID != "" then n else |a| + 1, if m.None? then None
            else MergeOne(m.value, f))
  {
    if m.None? {
      StillConflicting(a, f, n);
      assert (a + [f])[..|a| + 1] == a + [f];
    } else if n < |a| {
      assert a[n] in a;
      OneMoreAfterPod(a, f, n, m.value);
    } else {
      assert a[..n] == a;
      OneMoreBeforePod(a, f, m.value);
    }
  }

  lemma StillConflicting(a: seq<Found>, f: Found, n: nat)
    requires n <= |a| && !(PodsAgree(a) && Settles(a[..n]))
    ensures !(PodsAgree(a + [f]) && Settles((a + [f])[..n])) && !(PodsAgree(a + [f]) && Settles(a + [f]))
  {
    assert (a + [f])[..n] == a[..n];
    assert forall g :: g in a ==> g in a + [f];
    if !Settles(a[..n]) {
      var i, j :| 0 <= i < j < n && a[i].containerID != "" && a[j].containerID != a[i].containerID;
      assert (a + [f])[i] == a[i] && (a + [f])[j] == a[j];
    }
  }

  /** If any path names a pod, then so does the result, and every path that names a pod says what the result says. */
  lemma PodIsUnanimous(fs: seq<Found>, f: Found)
    requires Paired(fs) && Merge(fs).Some? && f in fs && f.podUID != ""
    ensures Merge(fs).value == f
  {
    MergesExactly(fs);
    var n := Podless(fs);
    assert f in fs[..n] || f in fs[n..];
  }

  lemma SameMembers(fs: seq<Found>, gs: seq<Found>)
    requires multiset(fs) == multiset(gs)
    ensures forall f :: f in fs <==> f in gs
  {
    forall f ensures f in fs <==> f in gs {
      assert f in multiset(fs) <==> f in multiset(gs);
    }
  }

  /** Two lists of the same findings that both merge give the same answer. */
  lemma OrderDoesNotMatter(fs: seq<Found>, gs: seq<Found>)
    requires Paired(fs) && (forall f :: f in fs <==> f in gs) && Merge(fs).Some? && Merge(gs).Some?
    ensures Merge(fs) == Merge(gs)
  {
    if f :| f in fs && f.podUID != "" {
      PodIsUnanimous(fs, f);
      PodIsUnanimous(gs, f);
    } else {
      PodlessMerge(fs);
      PodlessMerge(gs);
      assert fs != [] ==> fs[0] in gs;
      assert gs != [] ==> gs[0] in fs;
      if fs != [] {
        LastSettles(fs, gs[|gs| - 1]);
        LastSettles(gs, fs[|fs| - 1]);
      }
    }
  }

  /** Two orders of the same cgroup paths that both extract give the same pod UID and container ID; repeats do not
      matter either. */
  lemma PathOrderDoesNotMatter(ps: seq<string>, qs: seq<string>, extractPodUID: bool)
    requires forall p :: p in ps <==> p in qs
    requires Merge(ExtractedAll(ps, extractPodUID)).Some? && Merge(ExtractedAll(qs, extractPodUID)).Some?
    ensures Merge(ExtractedAll(ps, extractPodUID)) == Merge(ExtractedAll(qs, extractPodUID))
  {
    var fs, gs := ExtractedAll(ps, extractPodUID), ExtractedAll(qs, extractPodUID);
    FoundIn(ps, qs, extractPodUID);
    FoundIn(qs, ps, extractPodUID);
    OrderDoesNotMatter(fs, gs);
  }

  lemma FoundIn(ps: seq<string>, qs: seq<string>, extractPodUID: bool)
    requires forall p :: p in ps ==> p in qs
    ensures Paired(ExtractedAll(ps, extractPodUID))
    ensures forall f :: f in ExtractedAll(ps, extractPodUID) ==> f in ExtractedAll(qs, extractPodUID)
  {
    var fs, gs := ExtractedAll(ps, extractPodUID), ExtractedAll(qs, extractPodUID);
    forall f | f in fs ensures f in gs {
      var i :| 0 <= i < |fs| && fs[i] == f;
      assert ps[i] in qs;
      var j :| 0 <= j < |qs| && qs[j] == ps[i];
      assert gs[j] == f;
    }
  }

  lemma PodlessMerge(fs: seq<Found>)
    requires NoPods(fs) && Merge(fs).Some?
    ensures Settles(fs) && Merge(fs).value == if fs == [] then Found("", "") else fs[|fs| - 1]
  {
    MergesExactly(fs);
    assert fs[..|fs|] == fs;
  }

  lemma LastSettles(fs: seq<Found>, f: Found)
    requires Settles(fs) && NoPods(fs) && f in fs
    ensures f.containerID != "" ==> fs[|fs| - 1] == f
  {
    var i :| 0 <= i < |fs| && fs[i] == f;
    assert fs[|fs| - 1] in fs;
  }

  predicate PodlessAgree(fs: seq<Found>) {
    forall f, g :: f in fs && g in fs && f.podUID == "" && g.podUID == "" ==> f == g
  }

  ghost predicate EveryOrderMerges(fs: seq<Found>) {
    forall gs {:trigger Merge(gs)} :: multiset(gs) == multiset(fs) ==> Merge(gs).Some?
  }

  /** Whether they merge at all can depend on the order. It does not, if and only if the paths without a pod agree as
      well. */
  lemma EveryOrderMergesExactly(fs: seq<Found>)
    requires Paired(fs)
    ensures EveryOrderMerges(fs) <==> PodsAgree(fs) && PodlessAgree(fs)
  {
    if PodsAgree(fs) && PodlessAgree(fs) {
      forall gs {:trigger Merge(gs)} | multiset(gs) == multiset(fs) ensures Merge(gs).Some? {
        AgreedMerges(fs, gs);
      }
    }
    if EveryOrderMerges(fs) {
      MergesExactly(fs);
      forall f, g | f in fs && g in fs && f.podUID == "" && g.podUID == "" ensures f == g {
        if f != g {
          var order := if f.containerID != "" then ConflictingOrder(fs, f, g) else ConflictingOrder(fs, g, f);
          assert false;
        }
      }
    }
  }

  lemma AgreedMerges(fs: seq<Found>, gs: seq<Found>)
    requires Paired(fs) && PodsAgree(fs) && PodlessAgree(fs) && multiset(gs) == multiset(fs)
    ensures Merge(gs).Some?
  {
    SameMembers(fs, gs);
    MergesExactly(gs);
    var before := gs[..Podless(gs)];
    forall i, j | 0 <= i < j < |before| ensures before[i] == before[j] {
      assert before[i] in before && before[j] in before && before[i] in gs && before[j] in gs;
    }
  }

  function Without(fs: seq<Found>, f: Found): (rest: seq<Found>)
    requires f in fs
    ensures multiset(fs) == multiset([f] + rest)
  {
    if fs[0] == f then assert fs == [fs[0]] + fs[1..]; fs[1..]
    else
      assert fs == [fs[0]] + fs[1..];
      [fs[0]] + Without(fs[1..], f)
  }

  lemma TwoConflict(fs: seq<Found>, f: Found, g: Found)
    requires |fs| >= 2 && fs[0] == f && fs[1] == g && f != g && f.podUID == "" && g.podUID == "" && f.containerID != ""
    ensures Merge(fs).None?
  {
    assert fs[..2] == [f, g] && [f, g][..1] == [f] && [f][..0] == [];
    assert Merge([f]) == Some(f);
    MergeStaysFailed(fs, 2);
  }

  lemma Present(fs: seq<Found>, f: Found, rest: seq<Found>, g: Found)
    requires multiset(fs) == multiset([f] + rest) && g in fs && g != f
    ensures g in rest
  {
    SameMembers(fs, [f] + rest);
  }

  function ConflictingOrder(fs: seq<Found>, f: Found, g: Found): (order: seq<Found>)
    requires f in fs && g in fs && f != g && f.podUID == "" && g.podUID == "" && f.containerID != ""
    ensures multiset(order) == multiset(fs) && Merge(order).None?
  {
    var rest := Without(fs, f);
    Present(fs, f, rest, g);
    var order := [f, g] + Without(rest, g);
    assert order == [f] + ([g] + Without(rest, g));
    TwoConflict(order, f, g);
    order
  }

  /** 64 hex digits are a container ID that fills a segment. */
  lemma WholeID(id: string)
    requires |id| == ID_LENGTH && forall i :: 0 <= i < |id| ==> Hex(id[i])
    ensures FindContainer(id) == Some(0) && '/' !in id
  {
    assert Word(id[0]) && Word(id[|id| - 1]);
    assert ContainerAt(id, 0);
  }

  /** What two cgroup paths yield, one that ends in a container ID and one that is the root. */
  lemma PathsYield(id: string, extractPodUID: bool)
    requires |id| == ID_LENGTH && forall i :: 0 <= i < |id| ==> Hex(id[i])
    ensures Extracted(Walk("/" + id), extractPodUID) == Found("", id) &&
            Extracted(Walk("/"), extractPodUID) == Found("", "")
  {
    WalkOfID(id);
    WholeID(id);
    ScanHere(id, []);
    assert [id] + [] == [id] && id[0..ID_LENGTH] == id && Onto(id[..0], []) == [];
    EndsEmpty("");
    assert "" + "/" == "/";
  }

  lemma WalkOfID(id: string)
    requires id != "" && '/' !in id
    ensures Walk("/" + id) == [id]
  {
    StripLast("", id);
    assert "" + "/" + id == "/" + id;
    assert StripSegment("") == ("", "") && Walk("") == [];
  }

  lemma TwoPaths(p: string, q: string, extractPodUID: bool)
    ensures ExtractedAll([p, q], extractPodUID) ==
            [Extracted(Walk(p), extractPodUID), Extracted(Walk(q), extractPodUID)]
  {
  }

  lemma OneThenNothing(f: Found, e: Found)
    requires f.podUID == "" && f.containerID != "" && e == Found("", "")
    ensures Merge([f, e]).None? && Merge([e, f]) == Some(f)
  {
    assert [f, e][..1] == [f] && [e, f][..1] == [e] && [f][..0] == [] && [e][..0] == [];
    assert Merge([f]) == Some(f) && Merge([e]) == Some(e);
  }

  /** The root, which yields nothing, conflicts with a container ID found before it, but not with one found after it. */
  lemma NothingConflictsAfter(id: string, extractPodUID: bool)
    requires |id| == ID_LENGTH && forall i :: 0 <= i < |id| ==> Hex(id[i])
    ensures Merge(ExtractedAll(["/" + id, "/"], extractPodUID)).None?
    ensures Merge(ExtractedAll(["/", "/" + id], extractPodUID)) == Some(Found("", id))
  {
    var f, e := Found("", id), Found("", "");
    PathsYield(id, extractPodUID);
    OneThenNothing(f, e);
    TwoPaths("/" + id, "/", extractPodUID);
    TwoPaths("/", "/" + id, extractPodUID);
  }
}
