/**
 * Per-caller key namespaces of the object store service: a prefix derived from the caller's name is put in
 * front of every object key, once.
 */
module KeyScoping {
  import opened Wrappers

  datatype KeyError = MissingCaller | MissingKey | ParentSegment

  const MAX_CALLER: nat := 64

  /** The characters that trimming removes. */
  predicate IsSpace(c: char) {
    || c in {' ', '\t', '\n', '\r', '\U{b}', '\U{c}', '\U{85}', '\U{a0}', '\U{1680}', '\U{2028}', '\U{2029}',
             '\U{202f}', '\U{205f}', '\U{3000}'}
    || '\U{2000}' <= c <= '\U{200a}'
  }

  function TrimLeft(s: string): string {
    if s != [] && IsSpace(s[0]) then TrimLeft(s[1..]) else s
  }

  function TrimRight(s: string): string {
    if s != [] && IsSpace(s[|s| - 1]) then TrimRight(s[..|s| - 1]) else s
  }

  function TrimSpace(s: string): string {
    TrimRight(TrimLeft(s))
  }

  /** What a caller's name may keep. */
  predicate IsSafe(c: char) {
    'a' <= c <= 'z' || 'A' <= c <= 'Z' || '0' <= c <= '9' || c in {'.', '_', '-'}
  }

  function Sanitized(s: string): string {
    seq(|s|, i requires 0 <= i < |s| => if IsSafe(s[i]) then s[i] else '_')
  }

  function Truncated(s: string): string {
    if |s| > MAX_CALLER then s[..MAX_CALLER] else s
  }

  function CallerPrefix(header: string): Result<string, KeyError> {
    var caller := TrimSpace(header);
    if caller == "" then Err(MissingCaller) else Ok(Truncated(Sanitized(caller)) + "/")
  }

  /** The parts between slashes; a text without slashes is one segment. */
  function Split(s: string): seq<string> {
    if '/' !in s then [s]
    else
      var i := FirstSlash(s);
      [s[..i]] + Split(s[i + 1..])
  }

  function FirstSlash(s: string): (i: nat)
    requires '/' in s
    ensures i < |s| && s[i] == '/' && '/' !in s[..i]
  {
    if s[0] == '/' then 0 else 1 + FirstSlash(s[1..])
  }

  predicate HasPrefix(s: string, prefix: string) {
    |prefix| <= |s| && s[..|prefix|] == prefix
  }

  function WithoutLeadingSlash(s: string): string {
    if HasPrefix(s, "/") then s[1..] else s
  }

  function ScopedKey(prefix: string, key: string): Result<string, KeyError> {
    var clean := WithoutLeadingSlash(TrimSpace(key));
    if clean == "" then Err(MissingKey)
    else if ".." in Split(clean) then Err(ParentSegment)
    else if HasPrefix(clean, prefix) then Ok(clean)
    else Ok(prefix + clean)
  }

  // ----- What the functions compute, on positions of the text -----

  /** `key[a..b]` is the text without the space around it. */
  predicate IsTrimmed(s: string, a: nat, b: nat) {
    && a <= b <= |s|
    && (forall i :: 0 <= i < |s| && (i < a || b <= i) ==> IsSpace(s[i]))
    && (a < b ==> !IsSpace(s[a]) && !IsSpace(s[b - 1]))
  }

  lemma {:induction false} TrimLeftIs(s: string, a: nat)
    requires a <= |s| && forall i :: 0 <= i < a ==> IsSpace(s[i])
    requires a < |s| ==> !IsSpace(s[a])
    ensures TrimLeft(s) == s[a..]
  {
    if a > 0 {
      TrimLeftIs(s[1..], a - 1);
      assert s[1..][a - 1..] == s[a..];
    }
  }

  lemma {:induction false} TrimRightIs(s: string, b: nat)
    requires b <= |s| && forall i :: b <= i < |s| ==> IsSpace(s[i])
    requires b > 0 ==> !IsSpace(s[b - 1])
    ensures TrimRight(s) == s[..b]
  {
    if b < |s| {
      TrimRightIs(s[..|s| - 1], b);
      assert s[..|s| - 1][..b] == s[..b];
    }
  }

  /** Trimming removes exactly the space at both ends. */
  lemma TrimsExactly(s: string, a: nat, b: nat)
    requires IsTrimmed(s, a, b)
    ensures TrimSpace(s) == s[a..b]
  {
    if a < b {
      TrimLeftIs(s, a);
      TrimRightIs(s[a..], b - a);
      assert s[a..][..b - a] == s[a..b];
    } else {
      TrimLeftIs(s, |s|);
      assert s[|s|..] == [] && s[a..b] == [];
    }
  }

  lemma SomeTrim(s: string) returns (a: nat, b: nat)
    ensures IsTrimmed(s, a, b)
  {
    a, b := 0, |s|;
    while a < b && IsSpace(s[a])
      invariant a <= b && forall i :: 0 <= i < a ==> IsSpace(s[i])
    {
      a := a + 1;
    }
    while a < b && IsSpace(s[b - 1])
      invariant a <= b <= |s| && forall i :: b <= i < |s| ==> IsSpace(s[i])
      invariant a < b ==> !IsSpace(s[a])
    {
      b := b - 1;
    }
  }

  /** The stretch at `i` is "..", between two slashes or ends of the text. */
  predicate ParentAt(s: string, i: nat) {
    && i + 2 <= |s| && s[i] == '.' && s[i + 1] == '.'
    && (i == 0 || s[i - 1] == '/') && (i + 2 == |s| || s[i + 2] == '/')
  }

  lemma ParentInFront(s: string, k: nat)
    requires k < |s| && s[k] == '/' && s[..k] == ".."
    ensures ParentAt(s, 0)
  {
    assert k == |s[..k]| == 2 && s[0] == s[..k][0] && s[1] == s[..k][1];
  }

  lemma ParentBehind(s: string, i: nat, k: nat)
    requires k < |s| && s[k] == '/' && ParentAt(s[k + 1..], i)
    ensures ParentAt(s, i + k + 1)
  {
  }

  lemma {:induction false} SegmentIsStretch(s: string, parent: string) returns (i: nat)
    requires parent in Split(s) && parent == ".."
    ensures ParentAt(s, i)
  {
    if '/' in s {
      var k := FirstSlash(s);
      SplitUnfolds(s);
      InFront(s[..k], Split(s[k + 1..]), parent);
      if s[..k] == parent {
        ParentInFront(s, k);
        i := 0;
      } else {
        i := SegmentIsStretch(s[k + 1..], parent);
        ParentBehind(s, i, k);
        i := i + k + 1;
      }
    } else {
      ParentAlone(s, parent);
      i := 0;
    }
  }

  lemma ParentAlone(s: string, parent: string)
    requires '/' !in s && parent in Split(s) && parent == ".."
    ensures ParentAt(s, 0)
  {
    assert Split(s) == [s] && s == parent;
  }

  lemma SplitUnfolds(s: string)
    requires '/' in s
    ensures Split(s) == [s[..FirstSlash(s)]] + Split(s[FirstSlash(s) + 1..])
  {
  }

  lemma InFront<T>(x: T, rest: seq<T>, y: T)
    ensures y in [x] + rest <==> y == x || y in rest
  {
  }

  lemma FirstSegment(s: string, segment: string)
    requires '/' in s && s[..FirstSlash(s)] == segment
    ensures segment in Split(s)
  {
    SplitUnfolds(s);
    InFront(segment, Split(s[FirstSlash(s) + 1..]), segment);
  }

  lemma LaterSegment(s: string, rest: string, segment: string)
    requires '/' in s && rest == s[FirstSlash(s) + 1..] && segment in Split(rest)
    ensures segment in Split(s)
  {
    SplitUnfolds(s);
    InFront(s[..FirstSlash(s)], Split(rest), segment);
  }

  lemma {:induction false} StretchIsSegment(s: string, i: nat, parent: string)
    requires ParentAt(s, i) && parent == ".."
    ensures parent in Split(s)
    decreases |s|
  {
    if '/' !in s {
      WholeParent(s, i);
    } else if i > FirstSlash(s) {
      var rest := s[FirstSlash(s) + 1..];
      ShiftedParent(s, i, FirstSlash(s));
      StretchIsSegment(rest, i - FirstSlash(s) - 1, parent);
      LaterSegment(s, rest, parent);
    } else {
      ParentBeforeTheSlash(s, i, FirstSlash(s));
      FirstSegment(s, parent);
    }
  }

  lemma ShiftedParent(s: string, i: nat, k: nat)
    requires ParentAt(s, i) && k < i
    ensures ParentAt(s[k + 1..], i - k - 1)
  {
  }

  lemma WholeParent(s: string, i: nat)
    requires ParentAt(s, i) && '/' !in s
    ensures s == ".."
  {
    assert i == 0 && i + 2 == |s|;
  }

  lemma ParentSegmentsAreStretches(s: string)
    ensures ".." in Split(s) <==> exists i: nat :: ParentAt(s, i)
  {
    if ".." in Split(s) {
      var i := SegmentIsStretch(s, "..");
    }
    if i: nat :| ParentAt(s, i) {
      StretchIsSegment(s, i, "..");
    }
  }

  lemma ParentBeforeTheSlash(s: string, i: nat, k: nat)
    requires ParentAt(s, i) && i <= k < |s| && s[k] == '/' && '/' !in s[..k]
    ensures s[..k] == ".."
  {
    assert forall j :: 0 <= j < k ==> s[j] == s[..k][j];
    assert i + 2 <= k;
    assert i == 0 && k == 2;
  }

  /** The whole of the scoping: the trimmed text without one leading slash is refused when it is empty or holds a
      parent segment; otherwise it is kept when it carries the prefix and gets it when it does not. */
  lemma ScopedKeyIs(prefix: string, key: string) returns (a: nat, b: nat)
    ensures IsTrimmed(key, a, b)
    ensures var clean := key[if a < b && key[a] == '/' then a + 1 else a..b];
            var scoped := ScopedKey(prefix, key);
            && (scoped == Err(MissingKey) <==> clean == "")
            && (scoped == Err(ParentSegment) <==> exists i: nat :: ParentAt(clean, i))
            && (scoped.Ok? <==> clean != "" && !exists i: nat :: ParentAt(clean, i))
            && (scoped.Ok? ==> scoped.value == if prefix <= clean then clean else prefix + clean)
  {
    a, b := SomeTrim(key);
    TrimsExactly(key, a, b);
    var text := key[a..b];
    var clean := WithoutLeadingSlash(text);
    if a < b && key[a] == '/' {
      assert text[..1] == "/" && text[1..] == key[a + 1..b];
    } else {
      assert text != [] ==> text[0] == key[a] && text[..1][0] == text[0];
    }
    ParentSegmentsAreStretches(clean);
  }

  /** Letters and digits of ASCII, the dot, the underscore and the hyphen. */
  predicate Keeps(c: char) {
    'a' <= c <= 'z' || 'A' <= c <= 'Z' || '0' <= c <= '9' || c == '.' || c == '_' || c == '-'
  }

  lemma PrefixSpells(header: string, a: nat, b: nat)
    requires a < b <= |header|
    ensures var n, safe := if b - a > 64 then 64 else b - a, Truncated(Sanitized(header[a..b]));
            |safe| == n && forall i :: 0 <= i < n ==> safe[i] == if Keeps(header[a + i]) then header[a + i] else '_'
  {
  }

  /** The whole of the prefix: the trimmed name up to its sixty-fourth character, with an underscore for every
      unsafe one, and a slash; a name of space alone is refused. */
  lemma CallerPrefixIs(header: string) returns (a: nat, b: nat)
    ensures IsTrimmed(header, a, b)
    ensures CallerPrefix(header) == Err(MissingCaller) <==> a == b
    ensures a < b ==>
              var n := if b - a > 64 then 64 else b - a;
              && CallerPrefix(header).Ok? && |CallerPrefix(header).value| == n + 1
              && CallerPrefix(header).value[n] == '/'
              && forall i :: 0 <= i < n ==>
                   CallerPrefix(header).value[i] == if Keeps(header[a + i]) then header[a + i] else '_'
  {
    a, b := SomeTrim(header);
    TrimsExactly(header, a, b);
    if a < b {
      PrefixSpells(header, a, b);
    }
  }

  // ----- What a prefix looks like -----

  /** The form of every prefix that a caller can have. */
  predicate IsPrefix(p: string) {
    && 2 <= |p| <= MAX_CALLER + 1
    && p[|p| - 1] == '/'
    && forall i :: 0 <= i < |p| - 1 ==> IsSafe(p[i])
  }

  /** The prefixes are exactly the texts of one to sixty-four safe characters and a slash. */
  lemma PrefixesAreExactly(p: string)
    ensures IsPrefix(p) <==> exists header :: CallerPrefix(header) == Ok(p)
  {
    if IsPrefix(p) {
      var name := p[..|p| - 1];
      assert TrimSpace(name) == name;
      assert Sanitized(name) == name;
      assert name + "/" == p;
      assert CallerPrefix(name) == Ok(p);
    }
  }

  lemma PrefixName(p: string)
    requires IsPrefix(p)
    ensures '/' !in p[..|p| - 1] && p == p[..|p| - 1] + "/" && !IsSpace(p[0]) && p[0] != '/'
  {
    assert IsSafe(p[0]);
  }

  // ----- Segments -----

  lemma {:induction false} FirstSlashIs(name: string, rest: string)
    requires '/' !in name
    ensures var s := name + "/" + rest; '/' in s && FirstSlash(s) == |name|
  {
    var s := name + "/" + rest;
    assert s[|name|] == '/';
    if name != [] {
      FirstSlashIs(name[1..], rest);
      assert s[1..] == name[1..] + "/" + rest;
      assert s[0] == name[0];
    }
  }

  lemma SplitAtSlash(name: string, rest: string)
    requires '/' !in name
    ensures Split(name + "/" + rest) == [name] + Split(rest)
  {
    var s := name + "/" + rest;
    FirstSlashIs(name, rest);
    assert s[..|name|] == name && s[|name| + 1..] == rest;
  }

  lemma {:induction false} TrimRightKeeps(s: string)
    ensures HasPrefix(s, TrimRight(s))
    ensures TrimRight(s) != [] ==> !IsSpace(TrimRight(s)[|TrimRight(s)| - 1])
  {
    if s != [] && IsSpace(s[|s| - 1]) {
      TrimRightKeeps(s[..|s| - 1]);
    }
  }

  /** What the checks leave: a cleaned key that is not empty, does not end in space, and has no parent
      segment. */
  lemma CleanedKey(prefix: string, key: string) returns (clean: string)
    requires ScopedKey(prefix, key).Ok?
    ensures clean != [] && !IsSpace(clean[|clean| - 1]) && ".." !in Split(clean)
    ensures ScopedKey(prefix, key).value == if HasPrefix(clean, prefix) then clean else prefix + clean
  {
    var trimmed := TrimSpace(key);
    TrimRightKeeps(TrimLeft(key));
    clean := WithoutLeadingSlash(trimmed);
  }

  lemma ScopedStartsWithPrefix(prefix: string, key: string)
    requires ScopedKey(prefix, key).Ok?
    ensures HasPrefix(ScopedKey(prefix, key).value, prefix)
  {
    var clean := CleanedKey(prefix, key);
    assert (prefix + clean)[..|prefix|] == prefix;
  }

  lemma SegmentsBehindPrefix(prefix: string, rest: string, segment: string)
    requires IsPrefix(prefix)
    ensures segment in Split(prefix + rest) <==> prefix == segment + "/" || segment in Split(rest)
  {
    var name := prefix[..|prefix| - 1];
    PrefixName(prefix);
    SplitAtSlash(name, rest);
    assert prefix == segment + "/" ==> segment == name;
  }

  lemma ScopedSegments(prefix: string, key: string)
    requires IsPrefix(prefix) && ScopedKey(prefix, key).Ok?
    ensures ".." in Split(ScopedKey(prefix, key).value) <==> prefix == "../"
  {
    var clean := CleanedKey(prefix, key);
    assert ".." + "/" == "../";
    if HasPrefix(clean, prefix) {
      assert clean == prefix + clean[|prefix|..];
      SegmentsBehindPrefix(prefix, clean[|prefix|..], "..");
    } else {
      SegmentsBehindPrefix(prefix, clean, "..");
    }
  }

  lemma ScopedIsClean(prefix: string, key: string)
    requires IsPrefix(prefix) && ScopedKey(prefix, key).Ok?
    ensures var k := ScopedKey(prefix, key).value;
            k != [] && WithoutLeadingSlash(TrimSpace(k)) == k
  {
    var clean := CleanedKey(prefix, key);
    var k := ScopedKey(prefix, key).value;
    ScopedStartsWithPrefix(prefix, key);
    PrefixName(prefix);
    assert k[0] == prefix[0];
    assert k[|k| - 1] == clean[|clean| - 1];
    assert TrimLeft(k) == k && TrimRight(k) == k;
  }

  /** The key that an operation returns addresses the same object when it is presented again, exactly when
      the caller's prefix is not "../"; with that prefix the second scoping is refused. */
  lemma ScopingTwiceIsScopingOnceExactlyWhen(prefix: string, key: string)
    requires IsPrefix(prefix) && ScopedKey(prefix, key).Ok?
    ensures var k := ScopedKey(prefix, key).value;
            && (ScopedKey(prefix, k) == Ok(k) <==> prefix != "../")
            && (ScopedKey(prefix, k) == Err(ParentSegment) <==> prefix == "../")
            && (".." !in Split(k) <==> prefix != "../")
  {
    ScopedStartsWithPrefix(prefix, key);
    ScopedIsClean(prefix, key);
    ScopedSegments(prefix, key);
  }

  /** Two callers with different prefixes never reach the same object, whatever keys they present. */
  lemma NamespacesAreDisjoint(p: string, q: string, j: string, k: string)
    requires IsPrefix(p) && IsPrefix(q) && p != q
    requires ScopedKey(p, j).Ok? && ScopedKey(q, k).Ok?
    ensures ScopedKey(p, j).value != ScopedKey(q, k).value
  {
    ScopedStartsWithPrefix(p, j);
    ScopedStartsWithPrefix(q, k);
    var key := ScopedKey(p, j).value;
    if key == ScopedKey(q, k).value {
      PrefixName(p);
      PrefixName(q);
      PrefixOfKey(p, key);
      PrefixOfKey(q, key);
    }
  }

  /** A prefix is what comes before the first slash of any key that starts with it, and the slash. */
  lemma PrefixOfKey(p: string, key: string)
    requires IsPrefix(p) && HasPrefix(key, p)
    ensures '/' in key && p == key[..FirstSlash(key) + 1]
  {
    PrefixName(p);
    FirstSlashIs(p[..|p| - 1], key[|p|..]);
    assert key == p[..|p| - 1] + "/" + key[|p|..];
  }

  /** Two cleaned keys of a caller name the same object exactly when they are equal, or one is the other
      with the prefix that the other lacks. */
  lemma SameObjectExactlyWhen(prefix: string, j: string, k: string)
    requires ScopedKey(prefix, j).Ok? && ScopedKey(prefix, k).Ok?
    ensures var (a, b) := (WithoutLeadingSlash(TrimSpace(j)), WithoutLeadingSlash(TrimSpace(k)));
            ScopedKey(prefix, j) == ScopedKey(prefix, k)
            <==> || a == b
                 || (a == prefix + b && !HasPrefix(b, prefix))
                 || (b == prefix + a && !HasPrefix(a, prefix))
  {
    var a, b := WithoutLeadingSlash(TrimSpace(j)), WithoutLeadingSlash(TrimSpace(k));
    assert (prefix + a)[|prefix|..] == a && (prefix + b)[|prefix|..] == b;
    assert HasPrefix(prefix + a, prefix) && HasPrefix(prefix + b, prefix);
  }

  /** Two callers share a namespace exactly when their trimmed names agree, up to the sixty-fourth
      character, in every character once unsafe ones count as underscores. */
  lemma CallersShareANamespaceExactlyWhen(a: string, b: string)
    requires TrimSpace(a) != "" && TrimSpace(b) != ""
    ensures var (x, y) := (TrimSpace(a), TrimSpace(b));
            CallerPrefix(a) == CallerPrefix(b)
            <==> && (|x| == |y| || (|x| >= MAX_CALLER && |y| >= MAX_CALLER))
                 && forall i :: 0 <= i < |x| && i < |y| && i < MAX_CALLER ==>
                      x[i] == y[i] || ((!IsSafe(x[i]) || x[i] == '_') && (!IsSafe(y[i]) || y[i] == '_'))
  {
    var x, y := TrimSpace(a), TrimSpace(b);
    var s, t := Truncated(Sanitized(x)), Truncated(Sanitized(y));
    assert s + "/" == t + "/" <==> s == t by {
      assert (s + "/")[..|s + "/"| - 1] == s && (t + "/")[..|t + "/"| - 1] == t;
    }
    assert forall i :: 0 <= i < |s| ==> s[i] == if IsSafe(x[i]) then x[i] else '_';
    assert forall i :: 0 <= i < |t| ==> t[i] == if IsSafe(y[i]) then y[i] else '_';
  }
}
