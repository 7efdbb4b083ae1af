/**
  The names of the keys in Redis. Sessions share one flat key space, so what keeps them apart is
  that a session id, being a UUID, contains neither a colon nor a character special to KEYS.
 */
module RedisKeys {
  import opened Domain

  const ACTIVE_KEY := "session:active"

  function MetaKey(id: string): string {
    "session:" + id + ":meta"
  }

  function MetricsKey(id: string): string {
    "session:" + id + ":metrics"
  }

  function SlavePrefix(id: string): string {
    "session:" + id + ":slave:"
  }

  function SlaveKey(id: string, slaveID: string): string {
    SlavePrefix(id) + slaveID
  }

  function SlavePattern(id: string): string {
    SlavePrefix(id) + "*"
  }

  /** The characters that KEYS gives a meaning to, and the separator of the key names. */
  predicate IsPlain(id: string) {
    forall c <- id :: c !in ":*?[]\\"
  }

  // ---------------------------------------------------------------- distinctness

  /** Cutting at the first colon: two concatenations around it agree only part by part. */
  lemma {:induction false} CutAtColon(a: string, x: string, b: string, y: string)
    requires ':' !in a && ':' !in b && a + ":" + x == b + ":" + y
    ensures a == b && x == y
    decreases |a|
  {
    var l, r := a + ":" + x, b + ":" + y;
    assert l[0] == if a == [] then ':' else a[0];
    assert r[0] == if b == [] then ':' else b[0];
    if a == [] {
      assert b == [];
      assert x == l[1..] && y == r[1..];
    } else {
      assert b != [];
      assert l[1..] == a[1..] + ":" + x && r[1..] == b[1..] + ":" + y;
      CutAtColon(a[1..], x, b[1..], y);
      assert a == [a[0]] + a[1..] && b == [b[0]] + b[1..];
    }
  }

  /** Every key of a session is its id between "session:" and a colon, and then its kind. */
  function Key(id: string, kind: string): string {
    "session:" + id + ":" + kind
  }

  lemma KeyForms(id: string, slaveID: string)
    ensures MetaKey(id) == Key(id, "meta") && MetricsKey(id) == Key(id, "metrics")
    ensures SlaveKey(id, slaveID) == Key(id, "slave:" + slaveID)
    ensures SlavePrefix(id) == Key(id, "slave:")
  {
    assert ":meta" == ":" + "meta" && ":metrics" == ":" + "metrics" && ":slave:" == ":" + "slave:";
  }

  lemma KeyInjective(a: string, x: string, b: string, y: string)
    requires IsPlain(a) && IsPlain(b) && Key(a, x) == Key(b, y)
    ensures a == b && x == y
  {
    var n := |"session:"|;
    assert Key(a, x)[n..] == a + ":" + x && Key(b, y)[n..] == b + ":" + y;
    CutAtColon(a, x, b, y);
  }

  lemma ActiveIsNoKey(id: string, kind: string)
    ensures Key(id, kind) != ACTIVE_KEY
  {
    var n := |"session:"|;
    assert Key(id, kind)[n..][|id|] == ':';
    assert ACTIVE_KEY[n..] == "active";
  }

  /** The keys of plain ids are all different: across sessions, across kinds, and across slaves. */
  lemma KeysDistinct(a: string, b: string, s: string, t: string)
    requires IsPlain(a) && IsPlain(b)
    ensures MetaKey(a) != MetricsKey(b) && MetaKey(a) != SlaveKey(b, t) && MetricsKey(a) != SlaveKey(b, t)
    ensures MetaKey(a) != ACTIVE_KEY && MetricsKey(a) != ACTIVE_KEY && SlaveKey(a, s) != ACTIVE_KEY
    ensures MetaKey(a) == MetaKey(b) ==> a == b
    ensures MetricsKey(a) == MetricsKey(b) ==> a == b
    ensures SlaveKey(a, s) == SlaveKey(b, t) ==> a == b && s == t
  {
    KeyForms(a, s);
    KeyForms(b, t);
    ActiveIsNoKey(a, "meta");
    ActiveIsNoKey(a, "metrics");
    ActiveIsNoKey(a, "slave:" + s);
    forall x, y | Key(a, x) == Key(b, y)
      ensures a == b && x == y
    {
      KeyInjective(a, x, b, y);
    }
    assert ("slave:" + t)[0] == 's' && ("slave:" + s)[|"slave:"|..] == s && ("slave:" + t)[|"slave:"|..] == t;
  }

  /** What is before the first colon, and what is after it. */
  function Cut(s: string): (r: (string, string)) {
    if s == "" then ("", "")
    else if s[0] == ':' then ("", s[1..])
    else (s[..1] + Cut(s[1..]).0, Cut(s[1..]).1)
  }

  lemma {:induction false} CutAt(a: string, b: string)
    requires ':' !in a
    ensures Cut(a + ":" + b) == (a, b)
    decreases |a|
  {
    var s := a + ":" + b;
    if a == "" {
      assert s[0] == ':' && s[1..] == b;
    } else {
      assert s[0] == a[0] && s[1..] == a[1..] + ":" + b && s[..1] == a[..1] && a == a[..1] + a[1..];
      CutAt(a[1..], b);
    }
  }

  /** Read part by part, a key names `session`, the session and the kind of value, for a record also the slave. */
  lemma KeyReads(id: string, slaveID: string)
    requires IsPlain(id)
    ensures Cut(ACTIVE_KEY) == ("session", "active")
    ensures Cut(MetaKey(id)).0 == "session" && Cut(Cut(MetaKey(id)).1) == (id, "meta")
    ensures Cut(MetricsKey(id)).0 == "session" && Cut(Cut(MetricsKey(id)).1) == (id, "metrics")
    ensures Cut(SlaveKey(id, slaveID)).0 == "session" && Cut(Cut(SlaveKey(id, slaveID)).1).0 == id
    ensures Cut(Cut(Cut(SlaveKey(id, slaveID)).1).1) == ("slave", slaveID)
  {
    hide Cut;
    CutOf(ACTIVE_KEY, "session", "active");
    CutOf(MetaKey(id), "session", id + ":meta");
    CutOf(id + ":meta", id, "meta");
    CutOf(MetricsKey(id), "session", id + ":metrics");
    CutOf(id + ":metrics", id, "metrics");
    CutOf(SlaveKey(id, slaveID), "session", id + ":slave:" + slaveID);
    CutOf(id + ":slave:" + slaveID, id, "slave:" + slaveID);
    CutOf("slave:" + slaveID, "slave", slaveID);
  }

  lemma CutOf(s: string, a: string, b: string)
    requires s == a + ":" + b && ':' !in a
    ensures Cut(s) == (a, b)
  {
    hide Cut;
    CutAt(a, b);
  }

  // ---------------------------------------------------------------- ids that are not plain

  /** A key that the client uses for the session. */
  predicate IsKeyOf(id: string, key: string) {
    key == MetaKey(id) || key == MetricsKey(id) || SlavePrefix(id) <= key
  }

  /** `b`, with a colon after it, begins with `a` followed by ":slave:". */
  predicate Nested(a: string, b: string) {
    a + ":slave:" <= b + ":"
  }

  /** What a slave prefix of `a` has to do with a key of another id, whatever its kind. */
  lemma PrefixOfOther(a: string, b: string, kind: string)
    requires a != b && kind in {"meta", "metrics", "slave:"}
    ensures SlavePrefix(a) <= Key(b, kind) <==> Nested(a, b)
  {
    var l, r, n := a + ":slave:", b + ":" + kind, |"session:"|;
    assert SlavePrefix(a) == "session:" + l && Key(b, kind) == "session:" + r;
    assert SlavePrefix(a)[n..] == l && Key(b, kind)[n..] == r;
    assert SlavePrefix(a) <= Key(b, kind) <==> l <= r;
    if |l| <= |b| + 1 {
      assert (b + ":")[..|l|] == r[..|l|];
    } else if l <= r {
      PartsCompared(a, b, kind);
    }
  }

  lemma PartsCompared(a: string, b: string, kind: string)
    requires a != b && kind in {"meta", "metrics", "slave:"} && |a| + 6 > |b|
    ensures !(a + ":slave:" <= b + ":" + kind)
  {
    var l, r := a + ":slave:", b + ":" + kind;
    if |l| <= |r| {
      if |b| < |a| {
        assert |b| + 1 == |a| && l[|a|] == ':' && r[|a|] == kind[0];
      } else if |b| == |a| {
        var i :| 0 <= i < |a| && a[i] != b[i];
        assert l[i] == a[i] && r[i] == b[i];
      } else {
        assert l[|b|] == ":slave:"[|b| - |a|] && r[|b|] == ':';
      }
    }
  }

  /** Two slaves of different sessions can share a key if and only if one prefix extends the other. */
  lemma SlaveKeysMeet(a: string, b: string)
    ensures (exists s, t :: SlaveKey(a, s) == SlaveKey(b, t))
            <==> SlavePrefix(a) <= SlavePrefix(b) || SlavePrefix(b) <= SlavePrefix(a)
  {
    if s, t :| SlaveKey(a, s) == SlaveKey(b, t) {
      PrefixesCompared(SlavePrefix(a), s, SlavePrefix(b), t);
    }
    if SlavePrefix(a) <= SlavePrefix(b) {
      assert SlaveKey(a, SlavePrefix(b)[|SlavePrefix(a)|..]) == SlaveKey(b, "");
    }
    if SlavePrefix(b) <= SlavePrefix(a) {
      assert SlaveKey(a, "") == SlaveKey(b, SlavePrefix(a)[|SlavePrefix(b)|..]);
    }
  }

  lemma PrefixesCompared(a: string, s: string, b: string, t: string)
    requires a + s == b + t
    ensures a <= b || b <= a
  {
    assert a == (a + s)[..|a|] && b == (b + t)[..|b|];
  }

  /** Two such sessions; a master that draws its ids as UUIDs never has them, another caller could. */
  lemma ColonIDsCollide()
    ensures SlaveKey("a:slave:b", "c") == SlaveKey("a", "b:slave:c")
    ensures Nested("a", "a:slave:b")
  {
    assert "a" + ":slave:" <= "a:slave:b" + ":";
  }

  /**
    Two sessions have a key in common if and only if one id, with a colon after it, begins with the
    other followed by ":slave:". Then deleting the one session deletes keys of the other.
   */
  lemma SessionsShareKey(a: string, b: string)
    requires a != b
    ensures (exists key :: IsKeyOf(a, key) && IsKeyOf(b, key)) <==> Nested(a, b) || Nested(b, a)
  {
    KeyForms(a, "");
    KeyForms(b, "");
    PrefixOfOther(a, b, "meta");
    PrefixOfOther(a, b, "metrics");
    PrefixOfOther(a, b, "slave:");
    PrefixOfOther(b, a, "meta");
    PrefixOfOther(b, a, "metrics");
    PrefixOfOther(b, a, "slave:");
    RecordKeysApart(a, b);
    RecordKeysApart(b, a);
    if key :| IsKeyOf(a, key) && IsKeyOf(b, key) && SlavePrefix(a) <= key && SlavePrefix(b) <= key {
      PrefixesCompared(SlavePrefix(a), key[|SlavePrefix(a)|..], SlavePrefix(b), key[|SlavePrefix(b)|..]);
    }
    if Nested(a, b) {
      assert IsKeyOf(a, MetaKey(b)) && IsKeyOf(b, MetaKey(b));
    }
    if Nested(b, a) {
      assert IsKeyOf(a, MetaKey(a)) && IsKeyOf(b, MetaKey(a));
    }
  }

  lemma RecordKeysApart(a: string, b: string)
    requires a != b
    ensures MetaKey(a) != MetaKey(b) && MetricsKey(a) != MetricsKey(b) && MetaKey(a) != MetricsKey(b)
  {
    var n := |"session:"|;
    assert MetaKey(a)[n..|MetaKey(a)| - 5] == a && MetaKey(b)[n..|MetaKey(b)| - 5] == b;
    assert MetricsKey(a)[n..|MetricsKey(a)| - 8] == a && MetricsKey(b)[n..|MetricsKey(b)| - 8] == b;
    assert MetaKey(a)[|MetaKey(a)| - 1] == 'a' && MetricsKey(b)[|MetricsKey(b)| - 1] == 's';
  }

  /** Plain ids are never nested. */
  lemma PlainIsNotNested(a: string, b: string)
    requires IsPlain(b)
    ensures !Nested(a, b)
  {
    if |a| < |b| {
      assert b[|a|] in b && (a + ":slave:")[|a|] == ':' && (b + ":")[|a|] == b[|a|];
    }
  }

  // ---------------------------------------------------------------- KEYS

  /**
    Whether `c` is in the class that a pattern goes on with, after the bracket that opens it, and what
    of the pattern comes after the class. A backslash quotes, and a class that is not closed runs to the end.
   */
  function ReadClass(pattern: string, c: char): (r: (bool, string))
    ensures |r.1| <= |pattern|
  {
    if pattern == "" then (false, "")
    else if pattern[0] == '\\' && |pattern| >= 2 then
      var (found, rest) := ReadClass(pattern[2..], c);
      (found || pattern[1] == c, rest)
    else if pattern[0] == ']' then (false, pattern[1..])
    else if |pattern| >= 3 && pattern[1] == '-' then
      var (found, rest) := ReadClass(pattern[3..], c);
      (found || pattern[0] <= c <= pattern[2] || pattern[2] <= c <= pattern[0], rest)
    else
      var (found, rest) := ReadClass(pattern[1..], c);
      (found || pattern[0] == c, rest)
  }

  /** Glob matching as KEYS does it. */
  predicate Matches(pattern: string, key: string)
    decreases |pattern| + |key|
  {
    if pattern == "" then key == ""
    else if pattern[0] == '*' then
      Matches(pattern[1..], key) || (key != "" && Matches(pattern, key[1..]))
    else if key == "" then false
    else if pattern[0] == '?' then Matches(pattern[1..], key[1..])
    else if pattern[0] == '[' then
      var negated := |pattern| >= 2 && pattern[1] == '^';
      var (found, rest) := ReadClass(pattern[if negated then 2 else 1..], key[0]);
      found != negated && Matches(rest, key[1..])
    else if pattern[0] == '\\' && |pattern| >= 2 then
      pattern[1] == key[0] && Matches(pattern[2..], key[1..])
    else
      pattern[0] == key[0] && Matches(pattern[1..], key[1..])
  }

  lemma {:induction false} StarMatchesAll(key: string)
    ensures Matches("*", key)
    decreases |key|
  {
    if key == "" {
      assert "*"[1..] == "";
    } else {
      StarMatchesAll(key[1..]);
    }
  }

  /** A star stands for any text, even none. */
  lemma {:induction false} StarStandsForAny(pattern: string, key: string)
    ensures Matches("*" + pattern, key) <==> exists i :: 0 <= i <= |key| && Matches(pattern, key[i..])
    decreases |key|
  {
    var p := "*" + pattern;
    assert p[0] == '*' && p[1..] == pattern && key[0..] == key;
    if key != "" {
      StarStandsForAny(pattern, key[1..]);
      if i :| 0 <= i <= |key| && Matches(pattern, key[i..]) && i > 0 {
        assert key[1..][i - 1..] == key[i..];
      }
      if i :| 0 <= i <= |key[1..]| && Matches(pattern, key[1..][i..]) {
        assert key[1..][i..] == key[i + 1..];
      }
    }
  }

  /** A question mark stands for one character. */
  lemma {:induction false} MarksCount(marks: string, key: string)
    requires forall i :: 0 <= i < |marks| ==> marks[i] == '?'
    ensures Matches(marks, key) <==> |key| == |marks|
    decreases |marks|
  {
    if marks != "" {
      if key != "" {
        MarksCount(marks[1..], key[1..]);
      }
    }
  }

  /** A backslash quotes the next character. */
  lemma QuotedIsItself(c: char, pattern: string, key: string)
    ensures Matches("\\" + [c] + pattern, key) <==> key != "" && key[0] == c && Matches(pattern, key[1..])
  {
    var p := "\\" + [c] + pattern;
    assert p[0] == '\\' && p[1] == c && p[2..] == pattern;
  }

  /** A class of plain members. */
  lemma {:induction false} ClassRead(members: string, pattern: string, c: char)
    requires forall m <- members :: m !in "]\\-"
    ensures ReadClass(members + "]" + pattern, c) == (c in members, pattern)
    decreases |members|
  {
    var p := members + "]" + pattern;
    if members == "" {
      assert p[0] == ']' && p[1..] == pattern;
    } else {
      assert p[0] == members[0] && p[1..] == members[1..] + "]" + pattern && members[0] in members;
      assert members == [members[0]] + members[1..];
      assert |p| >= 3 ==> p[1] != '-' by {
        if |members| > 1 {
          assert p[1] == members[1] && members[1] in members;
        } else {
          assert p[1] == ']';
        }
      }
      ClassRead(members[1..], pattern, c);
    }
  }

  /** It matches one character, a member or, after a caret, any other. */
  lemma ClassMatches(members: string, pattern: string, key: string)
    requires members != "" && forall m <- members :: m !in "]\\-^"
    ensures Matches("[" + members + "]" + pattern, key)
            <==> key != "" && key[0] in members && Matches(pattern, key[1..])
    ensures Matches("[^" + members + "]" + pattern, key)
            <==> key != "" && key[0] !in members && Matches(pattern, key[1..])
  {
    hide ReadClass, Matches;
    var body := members + "]" + pattern;
    assert body[0] == members[0] && members[0] in members;
    assert "[" + members + "]" + pattern == "[" + body && "[^" + members + "]" + pattern == "[^" + body;
    BracketMatches(body, key);
    if key != "" {
      ClassRead(members, pattern, key[0]);
    }
  }

  lemma BracketMatches(body: string, key: string)
    requires body != "" && body[0] != '^'
    ensures Matches("[" + body, key) <==>
              key != "" && ReadClass(body, key[0]).0 && Matches(ReadClass(body, key[0]).1, key[1..])
    ensures Matches("[^" + body, key) <==>
              key != "" && !ReadClass(body, key[0]).0 && Matches(ReadClass(body, key[0]).1, key[1..])
  {
    hide ReadClass;
    var p, q := "[" + body, "[^" + body;
    assert p[0] == '[' == q[0] && q[1] == '^' && p[1] == body[0] && p[1..] == body && q[2..] == body;
  }

  /** A range has the characters between its ends, in whatever order these are given. */
  lemma RangeMatches(lo: char, hi: char, pattern: string, key: string)
    requires lo !in "]\\^"
    ensures Matches("[" + [lo] + "-" + [hi] + "]" + pattern, key)
            <==> key != "" && (lo <= key[0] <= hi || hi <= key[0] <= lo) && Matches(pattern, key[1..])
  {
    hide ReadClass, Matches;
    var body := [lo] + "-" + [hi] + "]" + pattern;
    assert body[0] == lo && "[" + [lo] + "-" + [hi] + "]" + pattern == "[" + body;
    BracketMatches(body, key);
    if key != "" {
      RangeRead(lo, hi, pattern, key[0]);
    }
  }

  lemma RangeRead(lo: char, hi: char, pattern: string, c: char)
    requires lo !in "]\\"
    ensures ReadClass([lo] + "-" + [hi] + "]" + pattern, c) == (lo <= c <= hi || hi <= c <= lo, pattern)
  {
    var body := [lo] + "-" + [hi] + "]" + pattern;
    assert body[0] == lo && body[1] == '-' && body[2] == hi && body[3..] == "]" + pattern;
    assert ReadClass("]" + pattern, c) == (false, pattern) by {
      assert ("]" + pattern)[0] == ']' && ("]" + pattern)[1..] == pattern;
    }
  }

  /** Nothing in it has a meaning to KEYS. */
  predicate IsLiteral(s: string) {
    forall i :: 0 <= i < |s| ==> s[i] !in "*?[\\"
  }

  lemma {:induction false} LiteralThenStar(prefix: string, key: string)
    requires IsLiteral(prefix)
    ensures Matches(prefix + "*", key) <==> prefix <= key
    decreases |prefix|
  {
    if prefix == "" {
      assert prefix + "*" == "*";
      StarMatchesAll(key);
    } else {
      var p := prefix + "*";
      assert p[0] == prefix[0] && p[1..] == prefix[1..] + "*";
      if key != "" {
        LiteralThenStar(prefix[1..], key[1..]);
        if prefix[0] == key[0] && prefix[1..] <= key[1..] {
          assert prefix == [prefix[0]] + prefix[1..] && key == [key[0]] + key[1..];
        }
      }
    }
  }

  lemma PrefixedIsSlaveKey(id: string, key: string)
    ensures SlavePrefix(id) <= key <==> exists slaveID :: key == SlaveKey(id, slaveID)
  {
    if SlavePrefix(id) <= key {
      assert key == SlaveKey(id, key[|SlavePrefix(id)|..]);
    }
  }

  /** KEYS with a session's slave pattern finds exactly that session's slave keys. */
  lemma PatternFindsSlaves(id: string, key: string)
    requires IsPlain(id)
    ensures Matches(SlavePattern(id), key) <==> SlavePrefix(id) <= key
    ensures SlavePrefix(id) <= key <==> exists slaveID :: key == SlaveKey(id, slaveID)
  {
    forall i | 0 <= i < |id|
      ensures id[i] !in "*?[\\"
    {
      assert id[i] in id;
    }
    LiteralThenStar(SlavePrefix(id), key);
    PrefixedIsSlaveKey(id, key);
  }

  /** A pattern that begins with literal text matches that text and then what the rest of it matches. */
  lemma {:induction false} LiteralFirst(prefix: string, pattern: string, key: string)
    requires IsLiteral(prefix)
    ensures Matches(pattern, key) ==> Matches(prefix + pattern, prefix + key)
    decreases |prefix|
  {
    if prefix == "" {
      assert prefix + pattern == pattern && prefix + key == key;
    } else {
      var p, k := prefix + pattern, prefix + key;
      assert p[0] == prefix[0] == k[0] && p[1..] == prefix[1..] + pattern && k[1..] == prefix[1..] + key;
      LiteralFirst(prefix[1..], pattern, key);
    }
  }

  /** A star stands for whatever comes before. */
  lemma {:induction false} StarSkips(pattern: string, text: string, key: string)
    requires Matches(pattern, key)
    ensures Matches("*" + pattern, text + key)
    decreases |text|
  {
    var p := "*" + pattern;
    assert p[0] == '*' && p[1..] == pattern;
    if text == "" {
      assert text + key == key;
    } else {
      assert (text + key)[1..] == text[1..] + key;
      StarSkips(pattern, text[1..], key);
    }
  }

  /** An id that KEYS gives a meaning to reaches further: `*` finds the slave keys of every session. */
  lemma StarFindsAll(id: string, slaveID: string)
    ensures Matches(SlavePattern("*"), SlaveKey(id, slaveID))
  {
    StarMatchesAll(slaveID);
    LiteralFirst(":slave:", "*", slaveID);
    StarSkips(":slave:" + "*", id, ":slave:" + slaveID);
    LiteralFirst("session:", "*" + (":slave:" + "*"), id + (":slave:" + slaveID));
    assert SlavePattern("*") == "session:" + ("*" + (":slave:" + "*"));
    assert SlaveKey(id, slaveID) == "session:" + (id + (":slave:" + slaveID));
  }
}
