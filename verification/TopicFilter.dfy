/** Matching MQTT topics against subscription filters (`_topic.py`), against the
    rules of section 4.7 of MQTT Version 5.0 (OASIS). */
module TopicFilter {

  // ------------------------------------------------------------------
  // Levels
  // ------------------------------------------------------------------

  /** Position of the first separator, or the end. */
  function FirstSlash(s: string): (i: nat)
    ensures i <= |s|
    ensures forall k :: 0 <= k < i ==> s[k] != '/'
    ensures i < |s| ==> s[i] == '/'
  {
    if s == [] || s[0] == '/' then 0 else 1 + FirstSlash(s[1..])
  }

  /** `split("/")`. */
  function Levels(s: string): (r: seq<string>)
    ensures r != []
    decreases |s|
  {
    var i := FirstSlash(s);
    if i == |s| then [s] else [s[..i]] + Levels(s[i + 1..])
  }

  function Join(levels: seq<string>): string
    requires levels != []
  {
    if |levels| == 1 then levels[0] else levels[0] + "/" + Join(levels[1..])
  }

  /** Levels determine the text. */
  lemma {:induction false} JoinLevels(s: string)
    ensures Join(Levels(s)) == s
    decreases |s|
  {
    hide Join;
    var i := FirstSlash(s);
    if i < |s| {
      JoinLevels(s[i + 1..]);
      JoinCons(s[..i], Levels(s[i + 1..]));
      Reassemble(s, i);
    } else {
      JoinOne(s);
    }
  }

  lemma JoinOne(s: string)
    ensures Join([s]) == s
  {}

  lemma JoinCons(head: string, rest: seq<string>)
    requires rest != []
    ensures Join([head] + rest) == head + "/" + Join(rest)
  {
    assert ([head] + rest)[1..] == rest;
  }

  lemma Reassemble(s: string, i: nat)
    requires i < |s| && s[i] == '/'
    ensures s == s[..i] + "/" + s[i + 1..]
  {}

  // ------------------------------------------------------------------
  // Which filters are well formed
  // ------------------------------------------------------------------

  predicate Has(level: string, c: char) { exists k :: 0 <= k < |level| && level[k] == c }

  predicate LevelOk(level: string, last: bool) {
    (Has(level, '#') ==> level == "#" && last) && (Has(level, '+') ==> level == "+")
  }

  predicate LevelsOk(levels: seq<string>) {
    forall i :: 0 <= i < |levels| ==> LevelOk(levels[i], i == |levels| - 1)
  }

  /** Section 4.7.1, character by character: the multi-level wildcard is the last
      character and alone in its level, the single-level one fills its level. */
  predicate InPlace(s: string, i: int)
    requires 0 <= i < |s|
  {
    && (s[i] == '#' ==> i == |s| - 1 && (i == 0 || s[i - 1] == '/'))
    && (s[i] == '+' ==> (i == 0 || s[i - 1] == '/') && (i == |s| - 1 || s[i + 1] == '/'))
  }

  predicate WildcardsInPlace(s: string) {
    forall i :: 0 <= i < |s| ==> InPlace(s, i)
  }

  predicate NoSlash(s: string) { forall k :: 0 <= k < |s| ==> s[k] != '/' }

  /** `is_valid_filter`. */
  method IsValidFilter(filter: string) returns (ok: bool)
    ensures ok <==> filter != "" && WildcardsInPlace(filter)
  {
    if filter == "" { return false; }
    var levels := Levels(filter);
    LevelsDecide(filter);
    for i := 0 to |levels|
      invariant forall j :: 0 <= j < i ==> LevelOk(levels[j], j == |levels| - 1)
    {
      var level := levels[i];
      if exists k :: 0 <= k < |level| && level[k] == '#' {
        if level != "#" || i != |levels| - 1 {
          assert !LevelOk(levels[i], i == |levels| - 1);
          return false;
        }
      }
      if (exists k :: 0 <= k < |level| && level[k] == '+') && level != "+" {
        assert !LevelOk(levels[i], i == |levels| - 1);
        return false;
      }
    }
    return true;
  }

  lemma OneLevel(s: string)
    requires NoSlash(s)
    ensures LevelOk(s, true) <==> WildcardsInPlace(s)
  {
    if LevelOk(s, true) {
      forall i | 0 <= i < |s| ensures InPlace(s, i) {
        assert s[i] == '#' ==> Has(s, '#');
        assert s[i] == '+' ==> Has(s, '+');
      }
    }
    if WildcardsInPlace(s) {
      if Has(s, '#') {
        var k :| 0 <= k < |s| && s[k] == '#';
        assert InPlace(s, k);
      }
      if Has(s, '+') {
        var k :| 0 <= k < |s| && s[k] == '+';
        assert InPlace(s, k);
      }
    }
  }

  /** Behind a separator the rule starts afresh. */
  lemma InPlaceBehind(s: string, i: nat, k: nat)
    requires i < |s| && s[i] == '/' && i + 1 + k < |s|
    ensures InPlace(s, i + 1 + k) <==> InPlace(s[i + 1..], k)
  {
    var rest := s[i + 1..];
    assert rest[k] == s[i + 1 + k];
    assert k > 0 ==> rest[k - 1] == s[i + k];
    assert k + 1 < |rest| ==> rest[k + 1] == s[i + 2 + k];
  }

  lemma HeadInPlace(s: string, i: nat)
    requires i < |s| && s[i] == '/' && NoSlash(s[..i])
    ensures (forall j :: 0 <= j < i ==> InPlace(s, j)) <==> LevelOk(s[..i], false)
  {
    var head := s[..i];
    assert forall j :: 0 <= j < i ==> head[j] == s[j] != '/';
    if forall j :: 0 <= j < i ==> InPlace(s, j) {
      forall j | 0 <= j < i ensures head[j] != '#' && (head[j] == '+' ==> i == 1) {
        assert InPlace(s, j);
      }
    }
    if LevelOk(head, false) {
      forall j | 0 <= j < i ensures InPlace(s, j) {
        assert head[j] == '#' ==> Has(head, '#');
        assert head[j] == '+' ==> Has(head, '+');
      }
    }
  }

  /** What the rule says of the first level and of the rest. */
  lemma FirstLevelDecides(s: string, i: nat)
    requires i < |s| && s[i] == '/' && NoSlash(s[..i])
    ensures WildcardsInPlace(s) <==> LevelOk(s[..i], false) && WildcardsInPlace(s[i + 1..])
  {
    hide LevelOk;
    HeadInPlace(s, i);
    var rest := s[i + 1..];
    if WildcardsInPlace(s) {
      forall k | 0 <= k < |rest| ensures InPlace(rest, k) { InPlaceBehind(s, i, k); }
    }
    if (forall j :: 0 <= j < i ==> InPlace(s, j)) && WildcardsInPlace(rest) {
      forall j | 0 <= j < |s| ensures InPlace(s, j) {
        if j > i {
          InPlaceBehind(s, i, j - i - 1);
          assert InPlace(rest, j - i - 1);
        }
      }
    }
  }

  lemma {:induction false} LevelsDecide(s: string)
    ensures LevelsOk(Levels(s)) <==> WildcardsInPlace(s)
    decreases |s|
  {
    hide WildcardsInPlace, LevelOk;
    var i := FirstSlash(s);
    if i == |s| {
      OneLevel(s);
      assert Levels(s) == [s];
      LevelsOkOne(s);
    } else {
      FirstLevelDecides(s, i);
      LevelsDecide(s[i + 1..]);
      var rest := Levels(s[i + 1..]);
      assert Levels(s) == [s[..i]] + rest;
      LevelsOkCons(s[..i], rest);
    }
  }

  lemma LevelsOkOne(s: string)
    ensures LevelsOk([s]) <==> LevelOk(s, true)
  {
    hide LevelOk;
    var one := [s];
    if LevelsOk(one) { assert LevelOk(one[0], 0 == |one| - 1); }
  }

  lemma LevelsOkCons(head: string, rest: seq<string>)
    requires rest != []
    ensures LevelsOk([head] + rest) <==> LevelOk(head, false) && LevelsOk(rest)
  {
    hide LevelOk;
    var all := [head] + rest;
    assert forall k :: 0 <= k < |rest| ==> all[k + 1] == rest[k];
    if LevelOk(head, false) && LevelsOk(rest) {
      forall i | 0 <= i < |all| ensures LevelOk(all[i], i == |all| - 1) {
        if i > 0 { assert all[i] == rest[i - 1]; }
      }
    }
    if LevelsOk(all) {
      assert LevelOk(all[0], false);
      forall k | 0 <= k < |rest|
        ensures LevelOk(rest[k], k == |rest| - 1)
      {
        assert LevelOk(all[k + 1], k + 1 == |all| - 1);
      }
    }
  }

  // ------------------------------------------------------------------
  // Matching
  // ------------------------------------------------------------------

  predicate LevelMatches(f: string, t: string) { f == "+" || f == t }

  /** Section 4.7.1: without the multi-level wildcard, level against level; with it
      at the end, the levels before it, then the parent and all its children. */
  predicate Denotes(fs: seq<string>, ts: seq<string>)
    requires fs != []
  {
    var n := |fs| - 1;
    if fs[n] == "#" then |ts| >= n && forall i :: 0 <= i < n ==> LevelMatches(fs[i], ts[i])
    else |ts| == |fs| && forall i :: 0 <= i < |fs| ==> LevelMatches(fs[i], ts[i])
  }

  /** Section 4.7.2: a filter that starts with a wildcard has no topic that starts
      with `$`. */
  predicate Hidden(filter: string, topic: string) {
    filter != "" && (filter[0] == '#' || filter[0] == '+') && topic != "" && topic[0] == '$'
  }

  /** The levels up to the first multi-level wildcard, which ends a filter wherever
      it stands. */
  function UpToHash(fs: seq<string>): (r: seq<string>)
    ensures fs != [] ==> r != []
  {
    if fs == [] then [] else if fs[0] == "#" then ["#"] else [fs[0]] + UpToHash(fs[1..])
  }

  predicate StartsReserved(fs: seq<string>, ts: seq<string>)
    requires fs != [] && ts != []
  {
    ts[0] != "" && ts[0][0] == '$' && (fs[0] == "+" || fs[0] == "#")
  }

  /** What `topic_matches` answers, for any text as filter. */
  predicate Accepts(filter: string, topic: string) {
    !StartsReserved(Levels(filter), Levels(topic)) && Denotes(UpToHash(Levels(filter)), Levels(topic))
  }

  method TopicMatches(filter: string, topic: string) returns (r: bool)
    ensures r == Accepts(filter, topic)
  {
    hide Levels;
    var filterLevels, topicLevels := Levels(filter), Levels(topic);
    if topicLevels[0] != "" && topicLevels[0][0] == '$' && (filterLevels[0] == "+" || filterLevels[0] == "#") {
      return false;
    }
    for i := 0 to |filterLevels|
      invariant i <= |topicLevels|
      invariant forall j :: 0 <= j < i ==> filterLevels[j] != "#" && LevelMatches(filterLevels[j], topicLevels[j])
    {
      var f := filterLevels[i];
      if f == "#" {
        CutAtHash(filterLevels, i);
        return true;
      }
      UncutBefore(filterLevels, i);
      if i >= |topicLevels| { return false; }
      if f == "+" { continue; }
      if f != topicLevels[i] { return false; }
    }
    NoHash(filterLevels);
    return |filterLevels| == |topicLevels|;
  }

  lemma {:induction false} CutAtHash(fs: seq<string>, i: nat)
    requires i < |fs| && fs[i] == "#" && forall j :: 0 <= j < i ==> fs[j] != "#"
    ensures UpToHash(fs) == fs[..i + 1]
  {
    if i > 0 {
      CutAtHash(fs[1..], i - 1);
      assert fs[..i + 1] == [fs[0]] + fs[1..][..i];
    } else {
      assert fs[..1] == ["#"];
    }
  }

  lemma {:induction false} UncutBefore(fs: seq<string>, i: nat)
    requires i < |fs| && forall j :: 0 <= j <= i ==> fs[j] != "#"
    ensures |UpToHash(fs)| > i && (forall j :: 0 <= j <= i ==> UpToHash(fs)[j] == fs[j])
    ensures UpToHash(fs)[|UpToHash(fs)| - 1] == "#" ==> |UpToHash(fs)| > i + 1
  {
    if i > 0 {
      UncutBefore(fs[1..], i - 1);
    } else {
      assert UpToHash(fs) == [fs[0]] + UpToHash(fs[1..]);
    }
  }

  lemma {:induction false} NoHash(fs: seq<string>)
    requires forall j :: 0 <= j < |fs| ==> fs[j] != "#"
    ensures UpToHash(fs) == fs
  {
    if fs != [] {
      NoHash(fs[1..]);
      assert fs == [fs[0]] + fs[1..];
    }
  }

  /** For every filter `is_valid_filter` accepts and every topic, the answer is that
      of section 4.7: level by level, the parent and all below a final multi-level
      wildcard, and no reserved topic for a filter that starts with a wildcard. */
  lemma AnswersBySection47(filter: string, topic: string)
    requires filter != "" && WildcardsInPlace(filter)
    ensures Accepts(filter, topic) <==> !Hidden(filter, topic) && Denotes(Levels(filter), Levels(topic))
  {
    hide WildcardsInPlace, Levels, Denotes;
    LevelsDecide(filter);
    var fs := Levels(filter);
    if exists i :: 0 <= i < |fs| && fs[i] == "#" {
      var i :| 0 <= i < |fs| && fs[i] == "#";
      HashIsLast(fs, i);
      forall j | 0 <= j < i ensures fs[j] != "#" { HashNotBefore(fs, j); }
      CutAtHash(fs, i);
      assert fs[..i + 1] == fs;
    } else {
      NoHash(fs);
    }
    ReservedIsHidden(filter, topic);
  }

  lemma HashNotBefore(fs: seq<string>, j: nat)
    requires LevelsOk(fs) && j < |fs| - 1
    ensures fs[j] != "#"
  {
    assert LevelOk(fs[j], j == |fs| - 1);
    assert Has("#", '#') by { assert "#"[0] == '#'; }
  }

  lemma FirstCharacters(s: string)
    ensures Levels(s)[0] != "" ==> s != "" && Levels(s)[0][0] == s[0]
    ensures s != "" && s[0] != '/' ==> Levels(s)[0] != ""
    ensures s == "" ==> Levels(s) == [""]
  {}

  lemma ReservedIsHidden(filter: string, topic: string)
    requires filter != "" && LevelsOk(Levels(filter))
    ensures StartsReserved(Levels(filter), Levels(topic)) <==> Hidden(filter, topic)
  {
    FirstCharacters(filter);
    FirstCharacters(topic);
    var level := Levels(filter)[0];
    assert LevelOk(level, 0 == |Levels(filter)| - 1);
    assert level != "" && level[0] == '+' ==> Has(level, '+');
    assert level != "" && level[0] == '#' ==> Has(level, '#');
  }

  lemma HashIsLast(fs: seq<string>, i: nat)
    requires LevelsOk(fs) && i < |fs| && fs[i] == "#"
    ensures i == |fs| - 1
  {
    assert LevelOk(fs[i], i == |fs| - 1);
    assert fs[i][0] == '#';
  }

  // ------------------------------------------------------------------
  // What the rules mean on whole topics
  // ------------------------------------------------------------------

  predicate Plain(s: string) { !Has(s, '#') && !Has(s, '+') }

  lemma PlainIsNoWildcard(s: string)
    requires Plain(s)
    ensures s != "#" && s != "+"
  {
    assert Has("#", '#') by { assert "#"[0] == '#'; }
    assert Has("+", '+') by { assert "+"[0] == '+'; }
  }

  lemma PlainParts(s: string, i: nat)
    requires Plain(s) && i < |s|
    ensures Plain(s[..i]) && Plain(s[i + 1..])
  {
    NoWildcardAt(s);
    var head, rest := s[..i], s[i + 1..];
    assert forall k :: 0 <= k < |head| ==> head[k] == s[k];
    assert forall k :: 0 <= k < |rest| ==> rest[k] == s[i + 1 + k];
  }

  lemma NoWildcardAt(s: string)
    requires Plain(s)
    ensures forall k :: 0 <= k < |s| ==> s[k] != '#' && s[k] != '+'
  {
    forall k | 0 <= k < |s| ensures s[k] != '#' && s[k] != '+' {
      assert s[k] == '#' ==> Has(s, '#');
      assert s[k] == '+' ==> Has(s, '+');
    }
  }

  lemma {:induction false} PlainLevels(s: string)
    requires Plain(s)
    ensures forall i :: 0 <= i < |Levels(s)| ==> Levels(s)[i] != "#" && Levels(s)[i] != "+"
    decreases |s|
  {
    hide Plain;
    var i := FirstSlash(s);
    if i < |s| {
      PlainParts(s, i);
      PlainIsNoWildcard(s[..i]);
      PlainLevels(s[i + 1..]);
      assert Levels(s) == [s[..i]] + Levels(s[i + 1..]);
    } else {
      PlainIsNoWildcard(s);
    }
  }

  /** A filter without wildcards matches its own topic and no other. */
  lemma PlainFilterMatchesItself(filter: string, topic: string)
    requires Plain(filter)
    ensures Denotes(Levels(filter), Levels(topic)) <==> filter == topic
  {
    PlainLevels(filter);
    JoinLevels(filter);
    JoinLevels(topic);
    var fs, ts := Levels(filter), Levels(topic);
    if Denotes(fs, ts) {
      assert fs == ts;
    }
  }

  lemma {:induction false} LevelsOfJoined(s: string, t: string)
    ensures Levels(s + "/" + t) == Levels(s) + Levels(t)
    decreases |s|
  {
    hide FirstSlash;
    var i := FirstSlash(s);
    var whole := s + "/" + t;
    SlashInJoined(s, t);
    if i == |s| {
      assert whole[..i] == s && whole[i + 1..] == t;
    } else {
      LevelsOfJoined(s[i + 1..], t);
      JoinedParts(s, t, i);
      assert Levels(whole) == [s[..i]] + (Levels(s[i + 1..]) + Levels(t));
      assert Levels(s) + Levels(t) == [s[..i]] + (Levels(s[i + 1..]) + Levels(t));
    }
  }

  lemma JoinedParts(s: string, t: string, i: nat)
    requires i < |s|
    ensures (s + "/" + t)[..i] == s[..i] && (s + "/" + t)[i + 1..] == s[i + 1..] + "/" + t
  {}

  lemma {:induction false} SlashInJoined(s: string, t: string)
    ensures FirstSlash(s + "/" + t) == FirstSlash(s)
  {
    var whole := s + "/" + t;
    if s != "" && s[0] != '/' {
      SlashInJoined(s[1..], t);
      assert whole[1..] == s[1..] + "/" + t;
    }
  }

  /** `parent/#` matches the parent itself, everything below it, and nothing else. */
  lemma MultiLevelMatchesParentAndBelow(parent: string, topic: string)
    requires Plain(parent)
    ensures Denotes(Levels(parent + "/#"), Levels(topic)) <==> topic == parent || parent + "/" <= topic
  {
    PlainLevels(parent);
    LevelsOfJoined(parent, "#");
    assert parent + "/" + "#" == parent + "/#";
    assert Levels("#") == ["#"];
    var ps, ts := Levels(parent), Levels(topic);
    var fs := Levels(parent + "/#");
    assert fs == ps + ["#"] && fs[|fs| - 1] == "#";
    assert Denotes(fs, ts) <==> ps <= ts by {
      assert forall i :: 0 <= i < |ps| ==> fs[i] == ps[i];
    }
    PrefixOfLevels(parent, topic);
  }

  lemma PrefixOfLevels(parent: string, topic: string)
    ensures Levels(parent) <= Levels(topic) <==> topic == parent || parent + "/" <= topic
  {
    hide Levels, Join;
    var ps, ts := Levels(parent), Levels(topic);
    JoinLevels(parent);
    JoinLevels(topic);
    if parent + "/" <= topic { BelowHasPrefix(parent, topic); }
    if ps <= ts {
      if |ps| < |ts| {
        var below := ts[|ps|..];
        assert ts == ps + below;
        JoinParts(ps, below);
        assert topic == (parent + "/") + Join(below);
      } else {
        assert ps == ts;
      }
    }
  }

  lemma BelowHasPrefix(parent: string, topic: string)
    requires parent + "/" <= topic
    ensures Levels(parent) <= Levels(topic)
  {
    hide Levels;
    var rest := topic[|parent| + 1..];
    assert topic == parent + "/" + rest;
    LevelsOfJoined(parent, rest);
  }

  lemma {:induction false} JoinParts(a: seq<string>, b: seq<string>)
    requires a != [] && b != []
    ensures Join(a + b) == Join(a) + "/" + Join(b)
  {
    if |a| == 1 {
      assert (a + b)[1..] == b;
    } else {
      JoinParts(a[1..], b);
      assert (a + b)[1..] == a[1..] + b;
      assert (a[0] + "/" + Join(a[1..])) + "/" + Join(b) == a[0] + "/" + (Join(a[1..]) + "/" + Join(b));
    }
  }
}
