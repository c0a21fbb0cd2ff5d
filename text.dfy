/**
 * The text classifiers of the UCS syslog filter: event detection, FSM stage
 * extraction, blade dn extraction and the `open(class+)close` capture used by
 * the API response extractors. Ruby's `\d` and `\w` are ASCII-only, so the
 * character classes here are ASCII too.
 */
module UcsText {
  import opened Wrappers

  predicate IsDigit(c: char) { '0' <= c <= '9' }

  /** Ruby's `\w`: ASCII letters, digits and underscore. */
  predicate IsWord(c: char) { 'a' <= c <= 'z' || 'A' <= c <= 'Z' || IsDigit(c) || c == '_' }

  /** The class `[\d\w\/-]` of the `assignedToDn` and `outCookie` extractors. */
  predicate IsDnChar(c: char) { IsWord(c) || c == '/' || c == '-' }

  datatype CharClass = Word | DnChar

  predicate InClass(c: char, k: CharClass) {
    match k
    case Word => IsWord(c)
    case DnChar => IsDnChar(c)
  }

  predicate AllInClass(s: string, k: CharClass) {
    forall t :: 0 <= t < |s| ==> InClass(s[t], k)
  }

  /** `p` occurs in `s` starting at index `i`. */
  predicate OccursAt(s: string, i: int, p: string) {
    0 <= i && i + |p| <= |s| && s[i..i + |p|] == p
  }

  /** Ruby's `s =~ /p/` for a pattern `p` without metacharacters. */
  predicate Contains(s: string, p: string) {
    exists i :: 0 <= i <= |s| - |p| && OccursAt(s, i, p)
  }

  // ---------------------------------------------------------------------
  // determineEvent

  datatype EventRule = EventRule(pattern: string, name: string)

  /** The `when` arms of `determineEvent`, in the order Ruby tries them. */
  const EventRules: seq<EventRule> := [
    EventRule("Power-on", "Boot"),
    EventRule("Soft shutdown", "Soft Shutdown"),
    EventRule("Hard shutdown", "Hard Shutdown"),
    EventRule("Power-cycle", "Restart")
  ]

  /** `determineEvent`: a `case` over four case-sensitive substrings; nil when none occurs. */
  function DetermineEvent(message: string): Option<string> {
    if Contains(message, "Power-on") then Some("Boot")
    else if Contains(message, "Soft shutdown") then Some("Soft Shutdown")
    else if Contains(message, "Hard shutdown") then Some("Hard Shutdown")
    else if Contains(message, "Power-cycle") then Some("Restart")
    else None
  }

  /** The event is the name of the first rule, in priority order, whose pattern occurs. */
  predicate FirstRuleIs(message: string, k: int) {
    0 <= k < |EventRules| && Contains(message, EventRules[k].pattern)
    && forall j :: 0 <= j < k ==> !Contains(message, EventRules[j].pattern)
  }

  lemma DetermineEventFirstRule(message: string)
    ensures DetermineEvent(message).None?
        <==> forall k :: 0 <= k < |EventRules| ==> !Contains(message, EventRules[k].pattern)
    ensures forall k :: FirstRuleIs(message, k) ==> DetermineEvent(message) == Some(EventRules[k].name)
    ensures DetermineEvent(message).Some? ==>
        exists k :: FirstRuleIs(message, k) && DetermineEvent(message).value == EventRules[k].name
  {
    var e := DetermineEvent(message);
    if e.Some? {
      var k := if Contains(message, "Power-on") then 0
               else if Contains(message, "Soft shutdown") then 1
               else if Contains(message, "Hard shutdown") then 2
               else 3;
      assert FirstRuleIs(message, k);
    }
  }

  lemma DetermineEventNames(message: string)
    ensures DetermineEvent(message).Some? ==>
        DetermineEvent(message).value in {"Boot", "Soft Shutdown", "Hard Shutdown", "Restart"}
  {
  }

  /** Earlier rules win: a power-on message is a boot whatever else it mentions. */
  lemma PowerOnWins(message: string)
    requires Contains(message, "Power-on")
    ensures DetermineEvent(message) == Some("Boot")
  {
  }

  // ---------------------------------------------------------------------
  // Captures of the shape  open (class+) close,  as in /\[FSM:(\w+)\]/

  datatype CapturePattern = CapturePattern(open: string, cls: CharClass, close: char)

  /** The closing character is not in the class, so a match is decided by the maximal run. */
  predicate WellFormed(pat: CapturePattern) { !InClass(pat.close, pat.cls) }

  /** The regex `open(cls+)close` matches at index `i` with group 1 equal to `v`. */
  ghost predicate MatchesAt(s: string, i: int, pat: CapturePattern, v: string) {
    v != [] && AllInClass(v, pat.cls) && OccursAt(s, i, pat.open + v + [pat.close])
  }

  /** `i` is the leftmost index where the regex matches, with group 1 equal to `v`. */
  ghost predicate LeftmostAt(s: string, i: int, pat: CapturePattern, v: string) {
    0 <= i <= |s| && MatchesAt(s, i, pat, v)
    && forall k, w :: 0 <= k < i ==> !MatchesAt(s, k, pat, w)
  }

  ghost predicate NoMatch(s: string, pat: CapturePattern) {
    forall k, w :: 0 <= k <= |s| ==> !MatchesAt(s, k, pat, w)
  }

  /** Length of the maximal run of class characters starting at `j`. */
  function RunLength(s: string, j: nat, k: CharClass): (n: nat)
    requires j <= |s|
    ensures j + n <= |s|
    ensures forall t :: j <= t < j + n ==> InClass(s[t], k)
    ensures j + n == |s| || !InClass(s[j + n], k)
    decreases |s| - j
  {
    if j < |s| && InClass(s[j], k) then 1 + RunLength(s, j + 1, k) else 0
  }

  /** The maximal run is unique. */
  lemma RunLengthIs(s: string, j: nat, k: CharClass, m: nat)
    requires j + m <= |s|
    requires forall t :: j <= t < j + m ==> InClass(s[t], k)
    requires j + m == |s| || !InClass(s[j + m], k)
    ensures RunLength(s, j, k) == m
  {
  }

  /** Tries the regex at index `i` only. */
  function CaptureAt(s: string, i: nat, pat: CapturePattern): Option<string>
    requires i <= |s|
  {
    if OccursAt(s, i, pat.open) then
      var j := i + |pat.open|;
      var n := RunLength(s, j, pat.cls);
      if 0 < n && j + n < |s| && s[j + n] == pat.close then Some(s[j..j + n]) else None
    else None
  }

  /** Tries the regex at `i`, `i + 1`, ... as Ruby's leftmost search does. */
  function CaptureFrom(s: string, i: nat, pat: CapturePattern): Option<string>
    requires i <= |s|
    decreases |s| - i
  {
    var c := CaptureAt(s, i, pat);
    if c.Some? || i == |s| then c else CaptureFrom(s, i + 1, pat)
  }

  /** Ruby's `s[regex, 1]`. */
  function Capture(s: string, pat: CapturePattern): Option<string> {
    CaptureFrom(s, 0, pat)
  }

  lemma CaptureAtSound(s: string, i: nat, pat: CapturePattern)
    requires i <= |s| && CaptureAt(s, i, pat).Some?
    ensures MatchesAt(s, i, pat, CaptureAt(s, i, pat).value)
  {
    var j := i + |pat.open|;
    var n := RunLength(s, j, pat.cls);
    var v := s[j..j + n];
    var w := pat.open + v + [pat.close];
    assert s[i..i + |w|] == w by {
      forall t | 0 <= t < |w| ensures s[i..i + |w|][t] == w[t] {
        if t < |pat.open| {
          assert s[i + t] == s[i..j][t];
        } else if t < |pat.open| + n {
          assert s[i + t] == v[t - |pat.open|];
        }
      }
    }
  }

  /** An occurrence of `a + b + [c]` splits into occurrences of its parts. */
  lemma OccursConcat(s: string, i: int, a: string, b: string, c: char)
    requires OccursAt(s, i, a + b + [c])
    ensures OccursAt(s, i, a) && OccursAt(s, i + |a|, b) && s[i + |a| + |b|] == c
  {
    var w := a + b + [c];
    forall t | 0 <= t < |w| ensures s[i + t] == w[t] {
      assert s[i + t] == s[i..i + |w|][t];
    }
    assert s[i..i + |a|] == a by {
      forall t | 0 <= t < |a| ensures s[i..i + |a|][t] == a[t] {
        assert w[t] == a[t];
      }
    }
    assert s[i + |a|..i + |a| + |b|] == b by {
      forall t | 0 <= t < |b| ensures s[i + |a|..i + |a| + |b|][t] == b[t] {
        assert w[|a| + t] == b[t];
      }
    }
    assert w[|a| + |b|] == c;
  }

  lemma CaptureAtComplete(s: string, i: nat, pat: CapturePattern, v: string)
    requires i <= |s| && WellFormed(pat) && MatchesAt(s, i, pat, v)
    ensures CaptureAt(s, i, pat) == Some(v)
  {
    var j := i + |pat.open|;
    OccursConcat(s, i, pat.open, v, pat.close);
    assert s[j..j + |v|] == v;
    forall t | j <= t < j + |v| ensures InClass(s[t], pat.cls) {
      assert s[t] == s[j..j + |v|][t - j];
    }
    RunLengthIs(s, j, pat.cls, |v|);
  }

  lemma CaptureAtIsMatch(s: string, i: nat, pat: CapturePattern, v: string)
    requires i <= |s| && WellFormed(pat)
    ensures CaptureAt(s, i, pat) == Some(v) <==> MatchesAt(s, i, pat, v)
  {
    if CaptureAt(s, i, pat) == Some(v) { CaptureAtSound(s, i, pat); }
    if MatchesAt(s, i, pat, v) { CaptureAtComplete(s, i, pat, v); }
  }

  lemma {:induction false} CaptureFromLeftmost(s: string, i: nat, pat: CapturePattern)
    requires i <= |s| && WellFormed(pat)
    ensures CaptureFrom(s, i, pat).None? ==> forall k, w :: i <= k <= |s| ==> !MatchesAt(s, k, pat, w)
    ensures CaptureFrom(s, i, pat).Some? ==>
        exists p :: i <= p <= |s| && MatchesAt(s, p, pat, CaptureFrom(s, i, pat).value)
                    && forall k, w :: i <= k < p ==> !MatchesAt(s, k, pat, w)
    decreases |s| - i
  {
    var c := CaptureAt(s, i, pat);
    forall w ensures !MatchesAt(s, i, pat, w) || c == Some(w) {
      CaptureAtIsMatch(s, i, pat, w);
    }
    if c.Some? {
      CaptureAtIsMatch(s, i, pat, c.value);
      assert MatchesAt(s, i, pat, c.value);
    } else if i < |s| {
      CaptureFromLeftmost(s, i + 1, pat);
      var r := CaptureFrom(s, i + 1, pat);
      if r.Some? {
        var p :| i + 1 <= p <= |s| && MatchesAt(s, p, pat, r.value)
                 && forall k, w :: i + 1 <= k < p ==> !MatchesAt(s, k, pat, w);
        assert i <= p <= |s| && MatchesAt(s, p, pat, r.value)
               && forall k, w :: i <= k < p ==> !MatchesAt(s, k, pat, w);
      }
    }
  }

  /**
   * `s[regex, 1]` is exactly group 1 of the leftmost match, and nil when the
   * regex does not match anywhere. A capture is never empty.
   */
  lemma CaptureIsLeftmost(s: string, pat: CapturePattern, v: string)
    requires WellFormed(pat)
    ensures Capture(s, pat) == Some(v) <==> exists p :: LeftmostAt(s, p, pat, v)
    ensures Capture(s, pat).None? <==> NoMatch(s, pat)
    ensures Capture(s, pat).Some? ==> Capture(s, pat).value != [] && AllInClass(Capture(s, pat).value, pat.cls)
  {
    CaptureFromLeftmost(s, 0, pat);
    var c := Capture(s, pat);
    if c.Some? {
      var p :| 0 <= p <= |s| && MatchesAt(s, p, pat, c.value)
               && forall k, w :: 0 <= k < p ==> !MatchesAt(s, k, pat, w);
      assert LeftmostAt(s, p, pat, c.value);
      assert !NoMatch(s, pat);
      if q :| LeftmostAt(s, q, pat, v) {
        assert q == p;
        CaptureAtIsMatch(s, p, pat, v);
        CaptureAtIsMatch(s, p, pat, c.value);
      }
    }
  }

  // ---------------------------------------------------------------------
  // determineStage

  /** `@@stageRegex`, /\[FSM:(\w+)\]/. */
  const StagePattern := CapturePattern("[FSM:", Word, ']')

  /** ASCII lower-casing; the only characters it has to handle here are `\w` ones. */
  function Lower(c: char): char {
    if 'A' <= c <= 'Z' then (c as int + 32) as char else c
  }

  function Downcase(s: string): string {
    seq(|s|, i requires 0 <= i < |s| => Lower(s[i]))
  }

  /** `determineStage`: the first `[FSM:<word>]` token, lower-cased, or nil. */
  function DetermineStage(message: string): Option<string> {
    match Capture(message, StagePattern)
    case None => None
    case Some(w) => Some(Downcase(w))
  }

  lemma DetermineStageSpec(message: string, stage: string)
    ensures DetermineStage(message).None? <==> NoMatch(message, StagePattern)
    ensures DetermineStage(message) == Some(stage) <==>
        exists p, w :: LeftmostAt(message, p, StagePattern, w) && stage == Downcase(w)
    ensures DetermineStage(message) == Some(stage) ==>
        stage != "" && AllInClass(stage, Word) && Downcase(stage) == stage
  {
    var c := Capture(message, StagePattern);
    CaptureIsLeftmost(message, StagePattern, if c.Some? then c.value else "");
    if c.Some? {
      var p :| LeftmostAt(message, p, StagePattern, c.value);
      if DetermineStage(message) == Some(stage) {
        assert LeftmostAt(message, p, StagePattern, c.value) && stage == Downcase(c.value);
      }
      if q, w :| LeftmostAt(message, q, StagePattern, w) && stage == Downcase(w) {
        CaptureIsLeftmost(message, StagePattern, w);
      }
    }
  }

  // ---------------------------------------------------------------------
  // Blade dn: @@bladeRegex, /sys\/chassis-\d\/blade-\d/

  const BladeDnLength := 21

  /** `t` is exactly `sys/chassis-D/blade-D` with single digits D. */
  predicate IsBladeDn(t: string) {
    |t| == BladeDnLength && t[..12] == "sys/chassis-" && IsDigit(t[12])
    && t[13..20] == "/blade-" && IsDigit(t[20])
  }

  predicate BladeAt(s: string, i: int) {
    0 <= i && i + BladeDnLength <= |s| && IsBladeDn(s[i..i + BladeDnLength])
  }

  function BladeDnFrom(s: string, i: nat): Option<string>
    decreases |s| - i
  {
    if i + BladeDnLength > |s| then None
    else if BladeAt(s, i) then Some(s[i..i + BladeDnLength])
    else BladeDnFrom(s, i + 1)
  }

  /** `message[@@bladeRegex, 0]`: the leftmost match, or nil. */
  function MatchBladeDn(s: string): Option<string> {
    BladeDnFrom(s, 0)
  }

  lemma {:induction false} BladeDnFromLeftmost(s: string, i: nat)
    ensures BladeDnFrom(s, i).None? <==> forall k :: i <= k ==> !BladeAt(s, k)
    ensures BladeDnFrom(s, i).Some? ==>
        exists p :: i <= p && BladeAt(s, p) && BladeDnFrom(s, i).value == s[p..p + BladeDnLength]
                    && forall k :: i <= k < p ==> !BladeAt(s, k)
    decreases |s| - i
  {
    if i + BladeDnLength > |s| {
      forall k | i <= k ensures !BladeAt(s, k) {
        assert k + BladeDnLength > |s|;
      }
    } else if BladeAt(s, i) {
      assert BladeDnFrom(s, i) == Some(s[i..i + BladeDnLength]);
    } else {
      BladeDnFromLeftmost(s, i + 1);
      assert BladeDnFrom(s, i) == BladeDnFrom(s, i + 1);
      if BladeDnFrom(s, i).None? {
        forall k | i <= k ensures !BladeAt(s, k) {
          if k > i { assert i + 1 <= k; }
        }
      } else {
        var p :| i + 1 <= p && BladeAt(s, p) && BladeDnFrom(s, i + 1).value == s[p..p + BladeDnLength]
                 && forall k :: i + 1 <= k < p ==> !BladeAt(s, k);
        assert forall k :: i <= k < p ==> !BladeAt(s, k);
      }
    }
  }

  /**
   * The blade dn is the leftmost `sys/chassis-D/blade-D` substring; there is
   * none exactly when the message `!~ @@bladeRegex`.
   */
  lemma MatchBladeDnSpec(s: string)
    ensures MatchBladeDn(s).None? <==> forall k :: 0 <= k ==> !BladeAt(s, k)
    ensures MatchBladeDn(s).Some? ==>
        IsBladeDn(MatchBladeDn(s).value)
        && exists p :: BladeAt(s, p) && MatchBladeDn(s).value == s[p..p + BladeDnLength]
                       && forall k :: 0 <= k < p ==> !BladeAt(s, k)
  {
    BladeDnFromLeftmost(s, 0);
  }

  /** A two-digit blade number is cut to its first digit by the single-digit pattern. */
  lemma TwoDigitBladeIsTruncated()
    ensures MatchBladeDn("sys/chassis-4/blade-17") == Some("sys/chassis-4/blade-1")
  {
    var s := "sys/chassis-4/blade-17";
    var t := s[..BladeDnLength];
    assert t == "sys/chassis-4/blade-1";
    assert t[..12] == "sys/chassis-";
    assert t[13..20] == "/blade-";
    assert BladeAt(s, 0);
  }

  /** A two-digit chassis number is not matched at all. */
  lemma TwoDigitChassisIsMissed()
    ensures MatchBladeDn("sys/chassis-14/blade-7") == None
  {
    var s := "sys/chassis-14/blade-7";
    assert !BladeAt(s, 0) by { assert s[12] == '1' && s[13] != '/'; }
    assert !BladeAt(s, 1) by { assert s[1..13] != "sys/chassis-" by { assert s[1] == 'y'; } }
    assert BladeDnFrom(s, 2) == None;
  }
}
