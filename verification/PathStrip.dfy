/** Dropping leading path components of an archive entry's name. */
module PathStrip {
  import opened Outcomes

  /** Both kinds of slash separate. */
  predicate IsSlash(c: char) {
    c == '/' || c == '\\'
  }

  /** The stretches between slashes, the empty ones included. */
  function SplitAtSlashes(name: string): (parts: seq<string>)
    ensures parts != []
  {
    if name == "" then [""]
    else
      var rest := SplitAtSlashes(name[1..]);
      if IsSlash(name[0]) then [""] + rest else [[name[0]] + rest[0]] + rest[1..]
  }

  predicate IsComponent(part: string) {
    part != "" && part != "."
  }

  function Components(parts: seq<string>): seq<string> {
    if parts == [] then []
    else (if IsComponent(parts[0]) then [parts[0]] else []) + Components(parts[1..])
  }

  function JoinSlash(parts: seq<string>): string {
    if parts == [] then ""
    else if |parts| == 1 then parts[0]
    else parts[0] + "/" + JoinSlash(parts[1..])
  }

  function PathComponents(name: string): seq<string> {
    Components(SplitAtSlashes(name))
  }

  /** The name without its first k components; unchanged for k <= 0; none if it has no more than k. */
  function StripPathComponents(name: string, k: int): Option<string> {
    if k <= 0 then Some(name)
    else
      var parts := PathComponents(name);
      if |parts| <= k then None else Some(JoinSlash(parts[k..]))
  }

  /** A component as splitting produces it. */
  ghost predicate Clean(part: string) {
    IsComponent(part) && forall c :: c in part ==> !IsSlash(c)
  }

  ghost predicate AllClean(parts: seq<string>) {
    forall i :: 0 <= i < |parts| ==> Clean(parts[i])
  }

  lemma {:induction false} PartsHaveNoSlash(name: string)
    ensures forall i, c :: 0 <= i < |SplitAtSlashes(name)| && c in SplitAtSlashes(name)[i] ==> !IsSlash(c)
  {
    if name != "" {
      PartsHaveNoSlash(name[1..]);
      var rest := SplitAtSlashes(name[1..]);
      assert forall i :: 0 < i < |rest| ==> rest[1..][i - 1] == rest[i];
    }
  }

  lemma {:induction false} ComponentsAreClean(parts: seq<string>)
    requires forall i, c :: 0 <= i < |parts| && c in parts[i] ==> !IsSlash(c)
    ensures AllClean(Components(parts))
  {
    if parts != [] {
      ComponentsAreClean(parts[1..]);
    }
  }

  /** Splitting a joined list begins with its first part. */
  lemma {:induction false} SplitFirstPart(part: string, slash: char, rest: string)
    requires (forall c :: c in part ==> !IsSlash(c)) && IsSlash(slash)
    ensures SplitAtSlashes(part + [slash] + rest) == [part] + SplitAtSlashes(rest)
  {
    var name := part + [slash] + rest;
    if part != "" {
      assert part[0] in part;
      forall c | c in part[1..] ensures !IsSlash(c) {
        assert c in part;
      }
      SplitFirstPart(part[1..], slash, rest);
      assert name[1..] == part[1..] + [slash] + rest;
      assert part == [part[0]] + part[1..];
    } else {
      assert name[1..] == rest;
    }
  }

  lemma {:induction false} SplitOnePart(part: string)
    requires forall c :: c in part ==> !IsSlash(c)
    ensures SplitAtSlashes(part) == [part]
  {
    if part != "" {
      assert part[0] in part;
      forall c | c in part[1..] ensures !IsSlash(c) {
        assert c in part;
      }
      SplitOnePart(part[1..]);
      assert part == [part[0]] + part[1..];
    }
  }

  /** Joining loses nothing: the components of a joined list of components are that list. */
  lemma {:induction false} ComponentsOfJoined(parts: seq<string>)
    requires AllClean(parts)
    ensures PathComponents(JoinSlash(parts)) == parts
  {
    if |parts| == 1 {
      assert Clean(parts[0]);
      SplitOnePart(parts[0]);
      assert Components([parts[0]]) == [parts[0]] + Components([]);
    } else if |parts| > 1 {
      assert Clean(parts[0]);
      assert forall i :: 0 <= i < |parts[1..]| ==> parts[1..][i] == parts[i + 1];
      ComponentsOfJoined(parts[1..]);
      SplitFirstPart(parts[0], '/', JoinSlash(parts[1..]));
      var split := SplitAtSlashes(JoinSlash(parts[1..]));
      assert ([parts[0]] + split)[1..] == split;
    }
  }

  /** What is left after stripping has exactly the remaining components. */
  lemma StrippedComponents(name: string, k: nat)
    ensures StripPathComponents(name, k) == None <==> k > 0 && |PathComponents(name)| <= k
    ensures StripPathComponents(name, k).Some? ==>
              && (k > 0 ==> k < |PathComponents(name)|)
              && PathComponents(StripPathComponents(name, k).value) == PathComponents(name)[k..]
  {
    var parts := PathComponents(name);
    PartsHaveNoSlash(name);
    ComponentsAreClean(SplitAtSlashes(name));
    if 0 < k < |parts| {
      assert AllClean(parts[k..]);
      ComponentsOfJoined(parts[k..]);
    }
  }

  /** Stripping a components and then b is stripping a + b, also where there are too few. */
  lemma StrippingComposes(name: string, a: nat, b: nat)
    ensures match StripPathComponents(name, a)
      case None => StripPathComponents(name, a + b) == None
      case Some(rest) => StripPathComponents(rest, b) == StripPathComponents(name, a + b)
  {
    StrippedComponents(name, a);
    if a > 0 && b > 0 && StripPathComponents(name, a).Some? {
      var parts := PathComponents(name);
      assert b <= |parts[a..]| ==> parts[a..][b..] == parts[a + b..];
    }
  }

  // ---- in the characters themselves ----

  /** The parts with these slashes between them. */
  function Spelled(parts: seq<string>, slashes: seq<char>): string
    requires |parts| == |slashes| + 1
  {
    if slashes == [] then parts[0] else parts[0] + [slashes[0]] + Spelled(parts[1..], slashes[1..])
  }

  function Nameable(part: string): seq<string> {
    if part == "" || part == "." then [] else [part]
  }

  /** The parts that are neither empty nor a dot. */
  function Named(parts: seq<string>): seq<string> {
    if parts == [] then [] else Named(parts[..|parts| - 1]) + Nameable(parts[|parts| - 1])
  }

  lemma {:induction false} NamedFirst(parts: seq<string>)
    requires parts != []
    ensures Named(parts) == Nameable(parts[0]) + Named(parts[1..])
  {
    if |parts| == 1 {
      assert parts[..0] == [] && parts[1..] == [];
    } else {
      hide Nameable;
      var last := |parts| - 1;
      var init, rest, middle := parts[..last], parts[1..], parts[1..last];
      NamedFirst(init);
      assert init[1..] == middle && rest[..|rest| - 1] == middle && rest[|rest| - 1] == parts[last];
      Regroup(Nameable(parts[0]), Named(middle), Nameable(parts[last]));
    }
  }

  lemma Regroup(a: seq<string>, b: seq<string>, c: seq<string>)
    ensures (a + b) + c == a + (b + c)
  {
  }

  lemma {:induction false} ComponentsAreNamed(parts: seq<string>)
    ensures Components(parts) == Named(parts)
  {
    if parts != [] {
      NamedFirst(parts);
      ComponentsAreNamed(parts[1..]);
    }
  }

  lemma {:induction false} SplitSpelled(parts: seq<string>, slashes: seq<char>)
    requires |parts| == |slashes| + 1
    requires forall i, c :: 0 <= i < |parts| && c in parts[i] ==> !IsSlash(c)
    requires forall i :: 0 <= i < |slashes| ==> IsSlash(slashes[i])
    ensures SplitAtSlashes(Spelled(parts, slashes)) == parts
  {
    if slashes == [] {
      SplitOnePart(parts[0]);
    } else {
      SplitFirstPart(parts[0], slashes[0], Spelled(parts[1..], slashes[1..]));
      SplitSpelled(parts[1..], slashes[1..]);
    }
  }

  lemma {:induction false} JoinIsSpelled(parts: seq<string>)
    requires parts != []
    ensures JoinSlash(parts) == Spelled(parts, seq(|parts| - 1, _ => '/'))
  {
    if |parts| > 1 {
      JoinIsSpelled(parts[1..]);
      assert seq(|parts| - 1, _ => '/')[1..] == seq(|parts| - 2, _ => '/');
    }
  }

  /** A name of parts with slashes of either kind between them: from the parts that are neither empty nor a dot
      the first k are left out, and the others, if there are any, are joined with forward slashes. */
  lemma StripsExactly(parts: seq<string>, slashes: seq<char>, k: int)
    requires |parts| == |slashes| + 1
    requires forall i, c :: 0 <= i < |parts| && c in parts[i] ==> c != '/' && c != '\\'
    requires forall i :: 0 <= i < |slashes| ==> slashes[i] == '/' || slashes[i] == '\\'
    ensures var name, named := Spelled(parts, slashes), Named(parts);
      StripPathComponents(name, k) ==
        if k <= 0 then Some(name)
        else if |named| <= k then None
        else Some(Spelled(named[k..], seq(|named| - k - 1, _ => '/')))
  {
    SplitSpelled(parts, slashes);
    ComponentsAreNamed(parts);
    if 0 < k < |Named(parts)| {
      JoinIsSpelled(Named(parts)[k..]);
    }
  }
}
