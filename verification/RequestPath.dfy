/**
 The call path that nested command sequences carry inside a request id, and the recursion
 guard that rests on it (src/ControlOrchestrator/ControlOrchestratorManager.cc): the base id, a
 marker, then every workflow name with its length in front.
 */
module RequestPath {
  import opened Decimals
  import opened Wrappers

  const MARKER := "\U{1E}CO_PATH="
  const MAX_PATH := 32

  datatype Parts = Parts(base: string, path: seq<string>)

  ghost predicate OccursAt(s: string, i: int) {
    0 <= i && i + |MARKER| <= |s| && s[i..i + |MARKER|] == MARKER
  }

  ghost predicate HasMarker(s: string) {
    exists i :: OccursAt(s, i)
  }

  ghost predicate MarkerFree(path: seq<string>) {
    forall k :: 0 <= k < |path| ==> !HasMarker(path[k])
  }

  // ---------- building an id ----------

  function IsDigit(c: char): bool {
    '0' <= c <= '9'
  }

  function ToText(s: seq<digit>): (t: string)
    ensures |t| == |s| && forall i :: 0 <= i < |t| ==> IsDigit(t[i]) && (t[i] - '0') as digit == s[i]
  {
    seq(|s|, i requires 0 <= i < |s| => '0' + s[i] as char)
  }

  predicate AllDigits(t: string) {
    forall i :: 0 <= i < |t| ==> IsDigit(t[i])
  }

  function FromText(t: string): (s: seq<digit>)
    requires AllDigits(t)
    ensures |s| == |t|
  {
    seq(|t|, i requires 0 <= i < |t| => (t[i] - '0') as digit)
  }

  function LengthText(name: string): (t: string)
    ensures |t| >= 1 && AllDigits(t) && Number(FromText(t)) == |name|
  {
    assert FromText(ToText(Digits(|name|))) == Digits(|name|);
    ToText(Digits(|name|))
  }

  function EntryText(name: string): string {
    LengthText(name) + ":" + name
  }

  function Encoded(path: seq<string>): string {
    if path == [] then "" else EntryText(path[0]) + Encoded(path[1..])
  }

  function Made(base: string, path: seq<string>): string {
    base + MARKER + Encoded(path)
  }

  lemma {:induction false} EncodedAppend(path: seq<string>, name: string)
    ensures Encoded(path + [name]) == Encoded(path) + EntryText(name)
  {
    if path == [] {
      assert [name][1..] == [];
      assert Encoded([name]) == EntryText(name) + "";
    } else {
      assert (path + [name])[1..] == path[1..] + [name];
      EncodedAppend(path[1..], name);
    }
  }

  method MakeRequestId(base: string, path: seq<string>) returns (id: string)
    ensures id == Made(base, path)
  {
    id := base;
    id := id + MARKER;
    ghost var front := id;
    for i := 0 to |path|
      invariant id == front + Encoded(path[..i])
    {
      var entry := EntryText(path[i]);
      EncodedNext(path, i);
      Associative(front, Encoded(path[..i]), entry);
      id := id + entry;
    }
    assert path[..|path|] == path;
  }

  lemma EncodedNext(path: seq<string>, i: nat)
    requires i < |path|
    ensures Encoded(path[..i + 1]) == Encoded(path[..i]) + EntryText(path[i])
  {
    assert path[..i + 1] == path[..i] + [path[i]];
    EncodedAppend(path[..i], path[i]);
  }

  lemma Associative(a: string, b: string, c: string)
    ensures a + (b + c) == (a + b) + c
  {
  }

  // ---------- taking an id apart ----------

  function FirstColon(t: string): (r: Option<nat>)
    ensures r.Some? ==> r.value < |t| && t[r.value] == ':' && forall i :: 0 <= i < r.value ==> t[i] != ':'
    ensures r == None ==> ':' !in t
  {
    if t == "" then None
    else if t[0] == ':' then Some(0)
    else
      match FirstColon(t[1..])
      case None => None
      case Some(n) => Some(n + 1)
  }

  datatype Entry = Entry(name: string, next: nat)

  /** The first entry of `t` and where the next one starts, when `t` starts with an entry. */
  function EntryOf(t: string): (r: Option<Entry>)
    ensures r.Some? ==> 0 < r.value.next <= |t|
  {
    match FirstColon(t)
    case None => None
    case Some(colon) =>
      if colon == 0 || !AllDigits(t[..colon]) then None
      else
        var length := Number(FromText(t[..colon]));
        if length > |t| - colon - 1 then None
        else Some(Entry(t[colon + 1..colon + 1 + length], colon + 1 + length))
  }

  /** The names that `t` lists, when it is a list of entries. */
  function ParsedPath(t: string): Option<seq<string>>
    decreases |t|
  {
    if t == "" then Some([])
    else
      match EntryOf(t)
      case None => None
      case Some(e) => Prepend([e.name], ParsedPath(t[e.next..]))
  }

  ghost predicate LastOccurrence(id: string, m: int) {
    OccursAt(id, m) && forall k :: OccursAt(id, k) ==> k <= m
  }

  /** The last place before `n` where the marker occurs. */
  function LastMarker(id: string, n: nat): (r: Option<nat>)
    ensures r == None ==> forall k :: OccursAt(id, k) ==> k >= n
    ensures r.Some? ==> r.value < n && OccursAt(id, r.value) && forall k :: OccursAt(id, k) && k < n ==> k <= r.value
  {
    if n == 0 then None
    else if n - 1 + |MARKER| <= |id| && id[n - 1..n - 1 + |MARKER|] == MARKER then Some(n - 1)
    else LastMarker(id, n - 1)
  }

  function SplitAt(id: string, m: nat): Parts
    requires m + |MARKER| <= |id|
  {
    match ParsedPath(id[m + |MARKER|..])
    case None => Parts(id, [])
    case Some(names) => Parts(id[..m], names)
  }

  /** The id without its last marker and path; the whole id when there is none or it is malformed. */
  function Split(id: string): Parts {
    match LastMarker(id, |id|)
    case None => Parts(id, [])
    case Some(m) => SplitAt(id, m)
  }

  method FindLast(id: string) returns (r: Option<nat>)
    ensures r == LastMarker(id, |id|)
  {
    var i := |id|;
    while i > 0
      invariant 0 <= i <= |id|
      invariant LastMarker(id, |id|) == LastMarker(id, i)
    {
      i := i - 1;
      if i + |MARKER| <= |id| && id[i..i + |MARKER|] == MARKER {
        return Some(i);
      }
    }
    return None;
  }

  method ReadEntry(t: string) returns (r: Option<Entry>)
    ensures r == EntryOf(t)
  {
    var separator := 0;
    while separator < |t| && t[separator] != ':'
      invariant 0 <= separator <= |t|
      invariant forall i :: 0 <= i < separator ==> t[i] != ':'
    {
      separator := separator + 1;
    }
    assert FirstColon(t) == if separator == |t| then None else Some(separator);
    if separator == |t| || separator == 0 {
      return None;
    }
    var digits := t[..separator];
    if !AllDigits(digits) {
      return None;
    }
    var length := Number(FromText(digits));
    if length > |t| - separator - 1 {
      return None;
    }
    return Some(Entry(t[separator + 1..separator + 1 + length], separator + 1 + length));
  }

  method SplitRequestId(id: string) returns (parts: Parts)
    ensures parts == Split(id)
  {
    var marker := FindLast(id);
    if marker == None {
      return Parts(id, []);
    }
    var m := marker.value;
    var path := ReadPath(id, m + |MARKER|);
    return if path == None then Parts(id, []) else Parts(id[..m], path.value);
  }

  method ReadPath(id: string, start: nat) returns (r: Option<seq<string>>)
    requires start <= |id|
    ensures r == ParsedPath(id[start..])
  {
    var cursor := start;
    var path: seq<string> := [];
    PrependNothing(ParsedPath(id[start..]));
    while cursor < |id|
      invariant start <= cursor <= |id|
      invariant ParsedPath(id[start..]) == Prepend(path, ParsedPath(id[cursor..]))
    {
      var entry := ReadEntry(id[cursor..]);
      if entry == None {
        return None;
      }
      var Entry(name, next) := entry.value;
      PrependCons(path, name, ParsedPath(id[cursor + next..]));
      path := path + [name];
      cursor := cursor + next;
    }
    PrependEmpty(path);
    assert id[cursor..] == "";
    return Some(path);
  }

  function Prepend(path: seq<string>, names: Option<seq<string>>): Option<seq<string>> {
    if names == None then None else Some(path + names.value)
  }

  lemma PrependNothing(names: Option<seq<string>>)
    ensures Prepend([], names) == names
  {
    if names.Some? {
      assert [] + names.value == names.value;
    }
  }

  lemma PrependEmpty(path: seq<string>)
    ensures Prepend(path, ParsedPath("")) == Some(path)
  {
    assert path + [] == path;
  }

  lemma PrependCons(path: seq<string>, name: string, names: Option<seq<string>>)
    ensures Prepend(path, Prepend([name], names)) == Prepend(path + [name], names)
  {
    if names.Some? {
      assert path + ([name] + names.value) == (path + [name]) + names.value;
    }
  }

  // ---------- splitting undoes making ----------

  lemma SliceSlice(s: string, from: nat, to: nat, i: nat, j: nat)
    requires from <= to <= |s| && i <= j <= to - from
    ensures s[from..to][i..j] == s[from + i..from + j]
  {
    var a, b := s[from..to][i..j], s[from + i..from + j];
    assert |a| == |b| && forall k :: 0 <= k < |a| ==> a[k] == s[from + i + k] == b[k];
  }

  /** The first entry of a text and what follows it. */
  lemma EntryParts(name: string, rest: string)
    ensures var t, n := EntryText(name) + rest, |LengthText(name)|;
            && |EntryText(name)| == n + 1 + |name|
            && t[..n] == LengthText(name) && t[n] == ':'
            && t[n + 1..n + 1 + |name|] == name && t[n + 1 + |name|..] == rest
            && (forall i :: 0 <= i < n ==> IsDigit(t[i]))
  {
    var t, n := EntryText(name) + rest, |LengthText(name)|;
    assert t == LengthText(name) + (":" + (name + rest));
  }

  lemma FirstColonAt(t: string, n: nat)
    requires n < |t| && t[n] == ':' && forall i :: 0 <= i < n ==> t[i] != ':'
    ensures FirstColon(t) == Some(n)
  {
    assert t[n] in t;
  }

  lemma LengthOf(x: string, name: string)
    requires x == LengthText(name)
    ensures AllDigits(x) && Number(FromText(x)) == |name|
  {
  }

  lemma EntryOfAt(t: string, n: nat, length: nat)
    requires FirstColon(t) == Some(n) && n > 0 && AllDigits(t[..n])
    requires length == Number(FromText(t[..n])) && n + 1 + length <= |t|
    ensures EntryOf(t).Some? && EntryOf(t).value.next == n + 1 + length
    ensures EntryOf(t).value.name == t[n + 1..n + 1 + length]
  {
  }

  lemma FirstEntry(name: string, rest: string)
    ensures EntryOf(EntryText(name) + rest) == Some(Entry(name, |EntryText(name)|))
    ensures (EntryText(name) + rest)[|EntryText(name)|..] == rest
  {
    EntryParts(name, rest);
    var t, n := EntryText(name) + rest, |LengthText(name)|;
    FirstColonAt(t, n);
    LengthOf(t[..n], name);
    EntryOfAt(t, n, |name|);
    var e := EntryOf(t).value;
    assert e.name == name && e.next == |EntryText(name)|;
  }

  lemma {:induction false} EncodedParses(path: seq<string>)
    ensures ParsedPath(Encoded(path)) == Some(path)
  {
    if path != [] {
      FirstEntry(path[0], Encoded(path[1..]));
      EncodedParses(path[1..]);
      assert [path[0]] + path[1..] == path;
    }
  }

  lemma MarkerChars(i: nat)
    requires i < |MARKER|
    ensures MARKER[i] != ':' && !IsDigit(MARKER[i]) && (MARKER[i] == MARKER[0] ==> i == 0)
  {
  }

  lemma OccursInSlice(s: string, from: nat, to: nat, i: int)
    requires from <= to <= |s|
    ensures OccursAt(s[from..to], i) <==> 0 <= i && from + i + |MARKER| <= to && OccursAt(s, from + i)
  {
    if 0 <= i && from + i + |MARKER| <= to {
      SliceSlice(s, from, to, i, i + |MARKER|);
    }
  }

  lemma SliceHasMarker(s: string, from: nat, to: nat)
    requires from <= to <= |s| && HasMarker(s[from..to])
    ensures HasMarker(s)
  {
    var i :| OccursAt(s[from..to], i);
    OccursInSlice(s, from, to, i);
  }

  lemma EncodedStart(path: seq<string>)
    requires path != []
    ensures Encoded(path) != "" && IsDigit(Encoded(path)[0])
  {
    EntryParts(path[0], Encoded(path[1..]));
  }

  /** No marker starts in a length prefix, and none reaches from a name into the next prefix. */
  lemma MarkerPosition(name: string, rest: string, i: int)
    requires rest != "" ==> IsDigit(rest[0])
    requires OccursAt(EntryText(name) + rest, i)
    ensures var n := |LengthText(name)| + 1; n <= i && (i + |MARKER| <= n + |name| || n + |name| <= i)
  {
    var t, to := EntryText(name) + rest, |EntryText(name)|;
    EntryParts(name, rest);
    MarkerChars(0);
    if i < to < i + |MARKER| {
      MarkerChars(to - i);
    }
  }

  lemma OccursInSuffix(s: string, from: nat, i: int)
    requires from <= |s|
    ensures OccursAt(s[from..], i) <==> 0 <= i && OccursAt(s, from + i)
  {
    assert s[from..|s|] == s[from..];
    OccursInSlice(s, from, |s|, i);
  }

  /** A marker in an entry and what follows it is in the name or in what follows. */
  lemma MarkerInEntry(name: string, rest: string, i: int)
    requires rest != "" ==> IsDigit(rest[0])
    requires OccursAt(EntryText(name) + rest, i)
    ensures i < |EntryText(name)| ==> HasMarker(name)
    ensures i >= |EntryText(name)| ==> OccursAt(rest, i - |EntryText(name)|)
  {
    var from, to := |LengthText(name)| + 1, |EntryText(name)|;
    EntryParts(name, rest);
    MarkerPosition(name, rest, i);
    var t := EntryText(name) + rest;
    if i < to {
      OccursInSlice(t, from, to, i - from);
      assert t[from..to] == name;
    } else {
      OccursInSuffix(t, to, i - to);
      assert t[to..] == rest;
    }
  }

  /** A marker inside an encoded path lies inside one of the names. */
  lemma {:induction false} MarkerInName(path: seq<string>, i: int) returns (k: nat)
    requires OccursAt(Encoded(path), i)
    ensures k < |path| && HasMarker(path[k])
  {
    k := 0;
    if path != [] {
      var to := |EntryText(path[0])|;
      if path[1..] != [] {
        EncodedStart(path[1..]);
      }
      MarkerInEntry(path[0], Encoded(path[1..]), i);
      if i >= to {
        k := MarkerInName(path[1..], i - to);
        k := k + 1;
      }
    }
  }

  lemma {:induction false} NameInEncoded(path: seq<string>, k: nat)
    requires k < |path| && HasMarker(path[k])
    ensures HasMarker(Encoded(path))
  {
    var name, rest, t := path[0], Encoded(path[1..]), Encoded(path);
    EntryParts(name, rest);
    if k == 0 {
      SliceHasMarker(t, |LengthText(name)| + 1, |EntryText(name)|);
    } else {
      NameInEncoded(path[1..], k - 1);
      assert t[|EntryText(name)|..|t|] == rest;
      SliceHasMarker(t, |EntryText(name)|, |t|);
    }
  }

  lemma MadeParts(base: string, path: seq<string>)
    ensures Made(base, path)[..|base|] == base
    ensures Made(base, path)[|base| + |MARKER|..] == Encoded(path)
    ensures OccursAt(Made(base, path), |base|)
  {
    assert Made(base, path) == base + (MARKER + Encoded(path));
  }

  lemma LaterMarker(base: string, path: seq<string>, i: int)
    requires OccursAt(Made(base, path), i) && i > |base|
    ensures OccursAt(Encoded(path), i - |base| - |MARKER|)
  {
    var s, from := Made(base, path), |base| + |MARKER|;
    MadeParts(base, path);
    if i < from {
      MarkerChars(i - |base|);
    } else {
      OccursInSuffix(s, from, i - from);
    }
  }

  lemma LaterMarkerInName(base: string, path: seq<string>)
    requires MarkerFree(path)
    ensures forall i :: OccursAt(Made(base, path), i) ==> i <= |base|
  {
    forall i | OccursAt(Made(base, path), i) ensures i <= |base| {
      if i > |base| {
        LaterMarker(base, path, i);
        var k := MarkerInName(path, i - |base| - |MARKER|);
      }
    }
  }

  lemma NameHasLaterMarker(base: string, path: seq<string>, k: nat)
    requires k < |path| && HasMarker(path[k])
    ensures exists i :: OccursAt(Made(base, path), i) && i > |base|
  {
    var s, from := Made(base, path), |base| + |MARKER|;
    MadeParts(base, path);
    NameInEncoded(path, k);
    var i :| OccursAt(Encoded(path), i);
    OccursInSuffix(s, from, i);
  }

  /** The marker that was appended is the last one exactly when no name has a marker. */
  lemma MadeOccurrences(base: string, path: seq<string>)
    ensures LastOccurrence(Made(base, path), |base|) <==> MarkerFree(path)
  {
    MadeParts(base, path);
    if MarkerFree(path) {
      LaterMarkerInName(base, path);
    } else {
      var k :| 0 <= k < |path| && HasMarker(path[k]);
      NameHasLaterMarker(base, path, k);
    }
  }

  /** Splitting gives back base and path for every base, exactly when no name has the marker. */
  lemma SplitMadeIff(base: string, path: seq<string>)
    ensures Split(Made(base, path)) == Parts(base, path) <==> MarkerFree(path)
  {
    var id := Made(base, path);
    MadeOccurrences(base, path);
    MadeParts(base, path);
    EncodedParses(path);
    var m := LastMarker(id, |id|).value;
    if m == |base| {
      assert LastOccurrence(id, |base|);
    } else {
      assert !LastOccurrence(id, |base|);
    }
  }

  // ---------- the recursion guard ----------

  /** Names that come out of an id never contain the marker. */
  lemma FirstNameIsSlice(t: string)
    requires EntryOf(t).Some? && HasMarker(EntryOf(t).value.name)
    ensures HasMarker(t)
  {
    SliceHasMarker(t, FirstColon(t).value + 1, EntryOf(t).value.next);
  }

  lemma SuffixHasMarker(t: string, from: nat)
    requires from <= |t| && HasMarker(t[from..])
    ensures HasMarker(t)
  {
    assert t[from..|t|] == t[from..];
    SliceHasMarker(t, from, |t|);
  }

  lemma {:induction false} ParsedNamesAreSlices(t: string, names: seq<string>, k: nat)
    requires ParsedPath(t) == Some(names) && k < |names|
    ensures HasMarker(names[k]) ==> HasMarker(t)
    decreases |t|
  {
    if HasMarker(names[k]) {
      if k == 0 {
        FirstNameIsSlice(t);
      } else {
        var next := EntryOf(t).value.next;
        ParsedNamesAreSlices(t[next..], names[1..], k - 1);
        SuffixHasMarker(t, next);
      }
    }
  }

  lemma NoMarkerAfterLast(id: string, m: int)
    requires LastOccurrence(id, m)
    ensures !HasMarker(id[m + |MARKER|..])
  {
    var from := m + |MARKER|;
    assert id[from..|id|] == id[from..];
    if i :| OccursAt(id[from..], i) {
      OccursInSlice(id, from, |id|, i);
    }
  }

  lemma SplitIsMarkerFree(id: string)
    ensures MarkerFree(Split(id).path)
  {
    var path := Split(id).path;
    if path != [] {
      var m := LastMarker(id, |id|).value;
      NoMarkerAfterLast(id, m);
      forall k | 0 <= k < |path| ensures !HasMarker(path[k]) {
        ParsedNamesAreSlices(id[m + |MARKER|..], path, k);
      }
    }
  }

  /** A sequence may run under an id whose path does not name it and is not too deep. */
  predicate Admitted(id: string, name: string) {
    |Split(id).path| < MAX_PATH && name !in Split(id).path
  }

  /** The id under which a sequence runs that `name`, running under `id`, calls. */
  ghost predicate CalledBy(id': string, id: string, name: string) {
    exists base :: id' == Made(base, Split(id).path + [name])
  }

  /** `names[i]` runs under `ids[i]`, called from `names[i - 1]`. */
  ghost predicate Chain(names: seq<string>, ids: seq<string>) {
    && |names| == |ids|
    && (forall i :: 0 <= i < |ids| ==> Admitted(ids[i], names[i]))
    && (forall i :: 0 < i < |ids| ==> CalledBy(ids[i], ids[i - 1], names[i - 1]))
  }

  lemma CalleePath(id': string, id: string, name: string)
    requires !HasMarker(name) && CalledBy(id', id, name)
    ensures Split(id').path == Split(id).path + [name]
  {
    var path := Split(id).path + [name];
    var base :| id' == Made(base, path);
    SplitIsMarkerFree(id);
    assert MarkerFree(path);
    SplitMadeIff(base, path);
  }

  /** Paths that grow by one name a step hold all earlier names. */
  lemma {:induction false} GrowingPaths(names: seq<string>, paths: seq<seq<string>>, i: nat)
    requires i < |names| == |paths|
    requires forall k :: 0 < k < |paths| ==> paths[k] == paths[k - 1] + [names[k - 1]]
    ensures |paths[i]| >= i && forall k :: 0 <= k < i ==> names[k] in paths[i]
  {
    if i > 0 {
      GrowingPaths(names, paths, i - 1);
    }
  }

  ghost function Paths(ids: seq<string>): (r: seq<seq<string>>)
    ensures |r| == |ids| && forall i :: 0 <= i < |ids| ==> r[i] == Split(ids[i]).path
  {
    seq(|ids|, i requires 0 <= i < |ids| => Split(ids[i]).path)
  }

  /** Every chain of nested sequences, whatever the id it starts from, runs each of them at most
      once and is at most 32 deep. */
  lemma ChainsAreShortAndDistinct(names: seq<string>, ids: seq<string>)
    requires Chain(names, ids) && MarkerFree(names)
    ensures |names| <= MAX_PATH
    ensures forall i, j :: 0 <= i < j < |names| ==> names[i] != names[j]
  {
    var paths := Paths(ids);
    forall k | 0 < k < |paths| ensures paths[k] == paths[k - 1] + [names[k - 1]] {
      CalleePath(ids[k], ids[k - 1], names[k - 1]);
    }
    if names != [] {
      GrowingPaths(names, paths, |names| - 1);
      assert Admitted(ids[|names| - 1], names[|names| - 1]);
    }
    forall i, j | 0 <= i < j < |names| ensures names[i] != names[j] {
      GrowingPaths(names, paths, j);
      assert Admitted(ids[j], names[j]);
    }
  }

  /** The recursion check catches a sequence that calls itself exactly when its name does not
      contain the marker: a name with the marker is never found in any path. */
  lemma RecursionDetectedIff(base: string, path: seq<string>, name: string)
    requires MarkerFree(path)
    ensures name in Split(Made(base, path + [name])).path <==> !HasMarker(name)
  {
    var all := path + [name];
    SplitIsMarkerFree(Made(base, all));
    if !HasMarker(name) {
      assert MarkerFree(all);
      SplitMadeIff(base, all);
    }
  }

  /** The last marker of a text that ends in a name with the marker is the last one of that name. */
  lemma LastOfSuffix(before: string, name: string, p: nat)
    requires LastOccurrence(name, p)
    ensures LastOccurrence(before + name, |before| + p)
  {
    var id := before + name;
    assert id[|before|..] == name;
    OccursInSuffix(id, |before|, p);
    forall k | OccursAt(id, k) ensures k <= |before| + p {
      if k >= |before| {
        OccursInSuffix(id, |before|, k - |before|);
      }
    }
  }

  /** The path after the last marker. */
  function PathAfter(id: string, m: nat): seq<string>
    requires m + |MARKER| <= |id|
  {
    var names := ParsedPath(id[m + |MARKER|..]);
    if names == None then [] else names.value
  }

  lemma PathAfterLast(id: string, m: nat)
    requires LastOccurrence(id, m)
    ensures Split(id).path == PathAfter(id, m)
  {
    assert LastMarker(id, |id|) == Some(m);
  }

  lemma LastExists(s: string) returns (p: nat)
    requires HasMarker(s)
    ensures LastOccurrence(s, p)
  {
    var i :| OccursAt(s, i);
    p := LastMarker(s, |s|).value;
  }

  lemma PathAfterSuffix(id: string, from: nat, name: string, p: nat)
    requires from <= |id| && id[from..] == name && p + |MARKER| <= |name|
    ensures PathAfter(id, from + p) == PathAfter(name, p)
  {
    assert id[from + p + |MARKER|..] == id[from..][p + |MARKER|..];
  }

  lemma SameLastPath(id: string, from: nat, name: string, p: nat)
    requires from <= |id| && id[from..] == name && LastOccurrence(name, p) && LastOccurrence(id, from + p)
    ensures Split(id).path == Split(name).path
  {
    PathAfterLast(name, p);
    PathAfterLast(id, from + p);
    PathAfterSuffix(id, from, name, p);
  }

  lemma SplitOfSuffix(before: string, name: string)
    requires HasMarker(name)
    ensures Split(before + name).path == Split(name).path
  {
    var p := LastExists(name);
    LastOfSuffix(before, name, p);
    assert (before + name)[|before|..] == name;
    SameLastPath(before + name, |before|, name, p);
  }

  /** Whatever path a sequence with such a name runs under, the path of its callee is that of the name. */
  lemma MarkerCalleePath(id': string, id: string, name: string)
    requires HasMarker(name) && CalledBy(id', id, name)
    ensures Split(id').path == Split(name).path
  {
    var path := Split(id).path;
    var base :| id' == Made(base, path + [name]);
    EncodedAppend(path, name);
    var front, length := base + MARKER, LengthText(name) + ":";
    Associative(front, Encoded(path), EntryText(name));
    Associative(front + Encoded(path), length, name);
    SplitOfSuffix(front + Encoded(path) + length, name);
  }

  /** The guard admits the sequence `name` inside itself `n` deep. Whether it also gets its lock there is another
      matter (`SequenceCalls`). */
  ghost predicate AdmittedInItself(name: string, n: nat) {
    exists names, ids :: Chain(names, ids) && |names| == n && forall k :: 0 <= k < n ==> names[k] == name
  }

  lemma ChainMore(names: seq<string>, ids: seq<string>, name: string, id: string)
    requires Chain(names, ids) && Admitted(id, name)
    requires names != [] ==> CalledBy(id, ids[|ids| - 1], names[|names| - 1])
    ensures Chain(names + [name], ids + [id])
  {
    var allNames, allIds := names + [name], ids + [id];
    forall i | 0 <= i < |allIds| ensures Admitted(allIds[i], allNames[i]) {
      assert i < |ids| ==> allIds[i] == ids[i] && allNames[i] == names[i] && Admitted(ids[i], names[i]);
    }
    forall i | 0 < i < |allIds| ensures CalledBy(allIds[i], allIds[i - 1], allNames[i - 1]) {
      assert i < |ids| ==> CalledBy(ids[i], ids[i - 1], names[i - 1]);
    }
  }

  lemma {:induction false} MarkerNameNests(name: string, n: nat) returns (names: seq<string>, ids: seq<string>)
    requires HasMarker(name) && |Split(name).path| < MAX_PATH
    ensures Chain(names, ids) && |names| == n && forall k :: 0 <= k < n ==> names[k] == name
  {
    names, ids := [], [];
    if n > 0 {
      names, ids := MarkerNameNests(name, n - 1);
      var id := "";
      if n > 1 {
        var last := ids[n - 2];
        id := Made("", Split(last).path + [name]);
        assert CalledBy(id, last, name);
        MarkerCalleePath(id, last, name);
        SplitIsMarkerFree(name);
      }
      ChainMore(names, ids, name, id);
      names, ids := names + [name], ids + [id];
    }
  }

  /** The guard admits a sequence whose name contains the marker inside itself at every depth exactly if the path
      that its own name spells is short of the limit; otherwise the limit stops whatever it calls. */
  lemma MarkerNameRecursesIff(name: string)
    requires HasMarker(name)
    ensures (forall n: nat :: AdmittedInItself(name, n)) <==> |Split(name).path| < MAX_PATH
    ensures |Split(name).path| >= MAX_PATH ==>
              forall names, ids, i :: Chain(names, ids) && 0 <= i < |names| && names[i] == name ==> i == |names| - 1
  {
    if |Split(name).path| < MAX_PATH {
      forall n: nat ensures AdmittedInItself(name, n) {
        var names, ids := MarkerNameNests(name, n);
      }
    } else {
      forall names, ids, i | Chain(names, ids) && 0 <= i < |names| && names[i] == name ensures i == |names| - 1 {
        if i + 1 < |names| {
          CalleeIsBelowLimit(names, ids, i);
        }
      }
      if AdmittedInItself(name, 2) {
        var names, ids :| Chain(names, ids) && |names| == 2 && forall k :: 0 <= k < 2 ==> names[k] == name;
        CalleeIsBelowLimit(names, ids, 0);
      }
    }
  }

  lemma CalleeIsBelowLimit(names: seq<string>, ids: seq<string>, i: nat)
    requires Chain(names, ids) && i + 1 < |names| && HasMarker(names[i])
    ensures |Split(names[i]).path| < MAX_PATH
  {
    MarkerCalleePath(ids[i + 1], ids[i], names[i]);
    assert Admitted(ids[i + 1], names[i + 1]);
  }

  /** The bare marker is such a name. */
  lemma MarkerNameRecursesForever(base: string)
    ensures HasMarker(MARKER)
    ensures Split(Made(base, [MARKER])).path == [] && Admitted(Made(base, [MARKER]), MARKER)
  {
    var name: string, id := MARKER, Made(base, [MARKER]);
    assert name[0..|MARKER|] == MARKER;
    assert OccursAt(name, 0);
    assert ([name])[1..] == [];
    assert Encoded([name]) == EntryText(name);
    var m := |id| - |MARKER|;
    assert id[m..m + |MARKER|] == MARKER;
    assert OccursAt(id, m);
    assert LastMarker(id, |id|) == Some(m);
    assert id[m + |MARKER|..] == "";
    assert ParsedPath("") == Some([]);
  }
}
