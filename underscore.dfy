/**
  Column-name conversion of internal/underscore.go: Go identifiers to
  snake_case (`Underscore`) and back (`CamelCased`, `ToExported`). Strings
  are byte strings; the byte arithmetic of ToUpper/ToLower wraps modulo 256
  exactly as Go's `byte` subtraction and addition do.
*/
module Underscore {
  import opened Strings

  /** One byte of a Go string (a character in 0..255). */
  type Byte = c: char | c <= 'ÿ'
  type Bytes = seq<Byte>

  predicate IsUpper(c: Byte) { 'A' <= c <= 'Z' }

  predicate IsLower(c: Byte) { 'a' <= c <= 'z' }

  /** `c - 32` on a byte, wrapping below zero. */
  function ToUpper(c: Byte): (r: Byte)
    ensures IsLower(c) ==> IsUpper(r)
  {
    ((c as int + 256 - 32) % 256) as char
  }

  /** `c + 32` on a byte, wrapping above 255. */
  function ToLower(c: Byte): (r: Byte)
    ensures IsUpper(c) ==> IsLower(r)
  {
    ((c as int + 32) % 256) as char
  }

  /**
    On the letters the source applies them to, the two conversions pair
    each letter with the same letter of the other case, and undo each
    other; on every byte, wrap-around included, they are inverse.
  */
  lemma CaseRoundTrip(c: Byte)
    ensures IsUpper(c) ==> IsLower(ToLower(c)) && ToLower(c) as int - 'a' as int == c as int - 'A' as int && ToUpper(ToLower(c)) == c
    ensures IsLower(c) ==> IsUpper(ToUpper(c)) && ToUpper(c) as int - 'A' as int == c as int - 'a' as int && ToLower(ToUpper(c)) == c
    ensures ToUpper(ToLower(c)) == c && ToLower(ToUpper(c)) == c
  {
  }

  /** The byte Underscore emits for a non-separator byte: uppercase letters are lowered. */
  function Lower(c: Byte): (r: Byte)
    ensures !IsUpper(r)
    ensures !IsUpper(c) ==> r == c
  {
    if IsUpper(c) then ToLower(c) else c
  }

  // ---------------------------------------------------------------------------
  // Underscore, specified one loop step at a time

  /** What one iteration at index `i` appends, and where the next iteration starts. */
  datatype Step = Step(emit: Bytes, next: nat)

  /** "IDs" at `i`, at the end or followed by a non-lowercase byte. */
  predicate IdsAt(s: Bytes, i: nat)
    requires i < |s|
  {
    s[i] == 'I' && i + 1 < |s| && s[i + 1] == 'D' &&
    i + 2 < |s| && s[i + 2] == 's' && (i + 3 >= |s| || !IsLower(s[i + 3]))
  }

  /** "ID" at `i`, at the end or followed by a non-lowercase byte. */
  predicate IdAt(s: Bytes, i: nat)
    requires i < |s|
  {
    s[i] == 'I' && i + 1 < |s| && s[i + 1] == 'D' && (i + 2 >= |s| || !IsLower(s[i + 2]))
  }

  /**
    The separator written before "id"/"ids": one '_' unless at the start or
    right after an input '_' (whose "__" already ends the output).
  */
  function IdSeparator(s: Bytes, i: nat): Bytes
    requires i < |s|
  {
    if i > 0 && s[i - 1] != '_' then ['_'] else []
  }

  /**
    An underscore goes before the uppercase byte at `i`: not at the start, not
    for a single capital at the very end, and only after a lowercase byte or at
    the end of an acronym (an uppercase byte followed by a lowercase one).
  */
  predicate WordBreakAt(s: Bytes, i: nat)
    requires i < |s|
  {
    i > 0 && IsUpper(s[i]) && i != |s| - 1 &&
    (IsLower(s[i - 1]) || (IsUpper(s[i - 1]) && i + 1 < |s| && IsLower(s[i + 1])))
  }

  function StepAt(s: Bytes, i: nat): (st: Step)
    requires i < |s|
    ensures i < st.next <= |s|
  {
    if s[i] == '_' then Step(['_', '_'], i + 1)
    else if IdsAt(s, i) then Step(IdSeparator(s, i) + ['i', 'd', 's'], i + 3)
    else if IdAt(s, i) then Step(IdSeparator(s, i) + ['i', 'd'], i + 2)
    else if WordBreakAt(s, i) then Step(['_', Lower(s[i])], i + 1)
    else Step([Lower(s[i])], i + 1)
  }

  /** The output the loop produces from index `i` on. */
  function UnderscoreFrom(s: Bytes, i: nat): Bytes
    requires i <= |s|
    decreases |s| - i
  {
    if i == |s| then [] else StepAt(s, i).emit + UnderscoreFrom(s, StepAt(s, i).next)
  }

  /** The snake_case form of `s`. */
  function Snake(s: Bytes): Bytes {
    UnderscoreFrom(s, 0)
  }

  /** A step writes something, and its last byte is '_' exactly when the last byte it consumed is. */
  lemma StepEnds(s: Bytes, i: nat)
    requires i < |s|
    ensures |StepAt(s, i).emit| > 0
    ensures StepAt(s, i).emit[|StepAt(s, i).emit| - 1] == '_' <==> s[StepAt(s, i).next - 1] == '_'
  {
    var st := StepAt(s, i);
    if s[i] == '_' {
      assert st.emit[|st.emit| - 1] == '_';
    } else if IdsAt(s, i) {
      assert st.emit[|st.emit| - 1] == 's' && s[st.next - 1] == 's';
    } else if IdAt(s, i) {
      assert st.emit[|st.emit| - 1] == 'd' && s[st.next - 1] == 'D';
    } else {
      assert st.next - 1 == i && st.emit[|st.emit| - 1] == Lower(s[i]);
    }
  }

  /**
    One loop iteration that appended the step's output keeps the loop
    invariant: the buffer and the pending output still make up `z`, and the
    buffer ends in '_' exactly when the byte consumed last is '_'.
  */
  lemma Advance(s: Bytes, r0: Bytes, i0: nat, r: Bytes, i: nat, z: Bytes)
    requires i0 < |s| && r0 + UnderscoreFrom(s, i0) == z
    requires r == r0 + StepAt(s, i0).emit && i == StepAt(s, i0).next
    ensures r + UnderscoreFrom(s, i) == z
    ensures |r| > 0 && (r[|r| - 1] == '_' <==> s[i - 1] == '_')
  {
    AdvanceOutput(s, r0, i0, r, i, z);
    AdvanceLast(s, r0, i0, r, i);
  }

  lemma AdvanceLast(s: Bytes, r0: Bytes, i0: nat, r: Bytes, i: nat)
    requires i0 < |s|
    requires r == r0 + StepAt(s, i0).emit && i == StepAt(s, i0).next
    ensures |r| > 0 && (r[|r| - 1] == '_' <==> s[i - 1] == '_')
  {
    StepEnds(s, i0);
    LastKept(r0, StepAt(s, i0).emit, r, s[i - 1]);
  }

  lemma AdvanceOutput(s: Bytes, r0: Bytes, i0: nat, r: Bytes, i: nat, z: Bytes)
    requires i0 < |s| && r0 + UnderscoreFrom(s, i0) == z
    requires r == r0 + StepAt(s, i0).emit && i == StepAt(s, i0).next
    ensures r + UnderscoreFrom(s, i) == z
  {
    UnfoldFrom(s, i0);
    Shift(r0, StepAt(s, i0).emit, UnderscoreFrom(s, i), z, r);
  }

  lemma UnfoldFrom(s: Bytes, i: nat)
    requires i < |s|
    ensures UnderscoreFrom(s, i) == StepAt(s, i).emit + UnderscoreFrom(s, StepAt(s, i).next)
  {
  }

  /** Moving a piece from the pending output to the buffer keeps their concatenation. */
  lemma Shift(r0: Bytes, e: Bytes, rest: Bytes, z: Bytes, r: Bytes)
    requires r0 + (e + rest) == z && r == r0 + e
    ensures r + rest == z
  {
  }

  /** A buffer extended by a non-empty piece ends as that piece does. */
  lemma LastKept(a: Bytes, e: Bytes, r: Bytes, c: Byte)
    requires |e| > 0 && r == a + e && (e[|e| - 1] == '_' <==> c == '_')
    ensures |r| > 0 && (r[|r| - 1] == '_' <==> c == '_')
  {
    assert r[|r| - 1] == e[|e| - 1];
  }

  /**
    Underscore as the source writes it, over a growing buffer. The second
    invariant is why the reads of the buffer's last byte are in range and
    agree with the specification: after the first iteration the buffer is
    never empty, and it ends in '_' exactly when the byte consumed last was '_'.
  */
  method Underscore(s: Bytes) returns (r: Bytes)
    ensures r == Snake(s)
  {
    if |s| == 0 {
      return s;
    }
    r := [];
    var i := 0;
    while i < |s|
      invariant 0 <= i <= |s|
      invariant r + UnderscoreFrom(s, i) == Snake(s)
      invariant i > 0 ==> |r| > 0 && (r[|r| - 1] == '_' <==> s[i - 1] == '_')
      decreases |s| - i
    {
      ghost var r0, i0 := r, i;
      var c := s[i];
      if c == '_' {
        r := r + ['_', '_'];
        i := i + 1;
      } else if c == 'I' && i + 1 < |s| && s[i + 1] == 'D' && i + 2 < |s| && s[i + 2] == 's' && (i + 3 >= |s| || !IsLower(s[i + 3])) {
        if i > 0 && r[|r| - 1] != '_' {
          r := r + ['_'];
        }
        r := r + ['i', 'd', 's'];
        i := i + 3;
      } else if c == 'I' && i + 1 < |s| && s[i + 1] == 'D' && (i + 2 >= |s| || !IsLower(s[i + 2])) {
        if i > 0 && r[|r| - 1] != '_' {
          r := r + ['_'];
        }
        r := r + ['i', 'd'];
        i := i + 2;
      } else if i > 0 && IsUpper(c) && i == |s| - 1 {
        r := r + [ToLower(c)];
        i := i + 1;
      } else {
        if i > 0 && IsUpper(c) {
          var prev := s[i - 1];
          if IsLower(prev) || (IsUpper(prev) && i + 1 < |s| && IsLower(s[i + 1])) {
            r := r + ['_'];
          }
        }
        if IsUpper(c) {
          r := r + [ToLower(c)];
        } else {
          r := r + [c];
        }
        i := i + 1;
      }
      Advance(s, r0, i0, r, i, Snake(s));
    }
  }

  // ---------------------------------------------------------------------------
  // Properties of Snake

  /** Each step consumes k bytes and emits between k and 2k. */
  lemma StepLength(s: Bytes, i: nat)
    requires i < |s|
    ensures StepAt(s, i).next - i <= |StepAt(s, i).emit| <= 2 * (StepAt(s, i).next - i)
  {
  }

  lemma {:induction false} FromLength(s: Bytes, i: nat)
    requires i <= |s|
    ensures |s| - i <= |UnderscoreFrom(s, i)| <= 2 * (|s| - i)
    decreases |s| - i
  {
    if i < |s| {
      StepLength(s, i);
      FromLength(s, StepAt(s, i).next);
    }
  }

  /** The output is never shorter than the input and at most twice as long. */
  lemma SnakeLength(s: Bytes)
    ensures |s| <= |Snake(s)| <= 2 * |s|
  {
    FromLength(s, 0);
  }

  predicate NoUpper(s: Bytes) {
    forall k :: 0 <= k < |s| ==> !IsUpper(s[k])
  }

  lemma {:induction false} FromNoUpper(s: Bytes, i: nat)
    requires i <= |s|
    ensures NoUpper(UnderscoreFrom(s, i))
    decreases |s| - i
  {
    if i < |s| {
      var st := StepAt(s, i);
      FromNoUpper(s, st.next);
      assert NoUpper(st.emit);
      var rest := UnderscoreFrom(s, st.next);
      assert UnderscoreFrom(s, i) == st.emit + rest;
      forall k | 0 <= k < |st.emit + rest|
        ensures !IsUpper((st.emit + rest)[k])
      {
        if k >= |st.emit| {
          assert (st.emit + rest)[k] == rest[k - |st.emit|];
        }
      }
    }
  }

  /** No byte 'A'..'Z' survives: uppercase is lowered and the ID/IDs paths emit lowercase. */
  lemma SnakeHasNoUpper(s: Bytes)
    ensures NoUpper(Snake(s))
  {
    FromNoUpper(s, 0);
  }

  /** Reference reading for input without uppercase: every '_' doubled, all else kept. */
  function DoubleUnderscores(s: Bytes): Bytes
    decreases |s|
  {
    if s == [] then [] else (if s[0] == '_' then ['_', '_'] else [s[0]]) + DoubleUnderscores(s[1..])
  }

  lemma {:induction false} FromWithoutUpper(s: Bytes, i: nat)
    requires i <= |s|
    requires NoUpper(s)
    ensures UnderscoreFrom(s, i) == DoubleUnderscores(s[i..])
    decreases |s| - i
  {
    if i < |s| {
      assert !IsUpper(s[i]);
      FromWithoutUpper(s, i + 1);
      assert s[i..][1..] == s[i + 1..];
    } else {
      assert s[i..] == [];
    }
  }

  /** Without uppercase bytes, Underscore only doubles the underscores. */
  lemma SnakeWithoutUpper(s: Bytes)
    requires NoUpper(s)
    ensures Snake(s) == DoubleUnderscores(s)
  {
    FromWithoutUpper(s, 0);
    assert s[0..] == s;
  }

  lemma {:induction false} DoubleUnderscoresIdentity(s: Bytes)
    requires '_' !in s
    ensures DoubleUnderscores(s) == s
    decreases |s|
  {
    if s != [] {
      assert '_' !in s[1..];
      DoubleUnderscoresIdentity(s[1..]);
    }
  }

  /** Input with no uppercase byte and no '_' (the empty string included) comes back unchanged. */
  lemma SnakeIdentity(s: Bytes)
    requires NoUpper(s) && '_' !in s
    ensures Snake(s) == s
  {
    SnakeWithoutUpper(s);
    DoubleUnderscoresIdentity(s);
  }

  /** An input '_' at `j` is never swallowed by a multi-byte step starting before it. */
  lemma {:induction false} ReachUnderscore(s: Bytes, i: nat, j: nat) returns (p: Bytes)
    requires i <= j < |s| && s[j] == '_'
    ensures UnderscoreFrom(s, i) == p + UnderscoreFrom(s, j)
    decreases j - i
  {
    if i == j {
      p := [];
    } else {
      var st := StepAt(s, i);
      assert st.next <= j;
      var q := ReachUnderscore(s, st.next, j);
      p := st.emit + q;
    }
  }

  /** After an input '_', conversion proceeds as if a new string started there. */
  lemma {:induction false} FromAfterUnderscore(s: Bytes, j: nat, k: nat)
    requires j < |s| && s[j] == '_'
    requires j + 1 <= k <= |s|
    ensures UnderscoreFrom(s, k) == UnderscoreFrom(s[j + 1..], k - (j + 1))
    decreases |s| - k
  {
    var t := s[j + 1..];
    var m := k - (j + 1);
    assert |t| - m == |s| - k;
    if k < |s| {
      assert forall d :: 0 <= d < |t| ==> t[d] == s[d + j + 1];
      var a := StepAt(s, k);
      var b := StepAt(t, m);
      assert IdsAt(s, k) == IdsAt(t, m);
      assert IdAt(s, k) == IdAt(t, m);
      assert IdSeparator(s, k) == IdSeparator(t, m);
      assert WordBreakAt(s, k) == WordBreakAt(t, m);
      assert a.emit == b.emit && a.next == b.next + j + 1;
      FromAfterUnderscore(s, j, a.next);
    }
  }

  /**
    Every '_' of the input becomes "__" in the output, followed by exactly the
    conversion of the rest of the input.
  */
  lemma UnderscoreDoubled(s: Bytes, j: nat)
    requires j < |s| && s[j] == '_'
    ensures exists p :: Snake(s) == p + ['_', '_'] + Snake(s[j + 1..])
  {
    var p := ReachUnderscore(s, 0, j);
    UnderscoreStep(s, j);
    var rest := Snake(s[j + 1..]);
    assert p + (['_', '_'] + rest) == p + ['_', '_'] + rest;
  }

  /** From an input '_' on, the output is "__" and then the conversion of what follows. */
  lemma UnderscoreStep(s: Bytes, j: nat)
    requires j < |s| && s[j] == '_'
    ensures UnderscoreFrom(s, j) == ['_', '_'] + Snake(s[j + 1..])
  {
    assert StepAt(s, j) == Step(['_', '_'], j + 1);
    FromAfterUnderscore(s, j, j + 1);
  }

  // The worked examples below are evaluated step by step: the step facts are
  // cheap for the verifier, long literal comparisons are not.

  lemma CamelCasedStringSteps0()
    ensures var s: Bytes := "CamelCasedString";
      StepAt(s, 0) == Step("c", 1) && StepAt(s, 1) == Step("a", 2) && StepAt(s, 2) == Step("m", 3) &&
      StepAt(s, 3) == Step("e", 4)
  {
  }

  lemma CamelCasedStringSteps4()
    ensures var s: Bytes := "CamelCasedString";
      StepAt(s, 4) == Step("l", 5) && StepAt(s, 5) == Step("_c", 6) && StepAt(s, 6) == Step("a", 7) &&
      StepAt(s, 7) == Step("s", 8)
  {
  }

  lemma CamelCasedStringSteps8()
    ensures var s: Bytes := "CamelCasedString";
      StepAt(s, 8) == Step("e", 9) && StepAt(s, 9) == Step("d", 10) && StepAt(s, 10) == Step("_s", 11) &&
      StepAt(s, 11) == Step("t", 12)
  {
  }

  lemma CamelCasedStringSteps12()
    ensures var s: Bytes := "CamelCasedString";
      StepAt(s, 12) == Step("r", 13) && StepAt(s, 13) == Step("i", 14) && StepAt(s, 14) == Step("n", 15) &&
      StepAt(s, 15) == Step("g", 16)
  {
  }

  lemma CamelCasedStringTail()
    ensures UnderscoreFrom("CamelCasedString", 8) == "ed_string"
  {
    CamelCasedStringSteps8();
    CamelCasedStringSteps12();
  }

  /** The example of the source's doc comment. */
  lemma SnakeCamelCasedString()
    ensures Snake("CamelCasedString") == "camel_cased_string"
  {
    CamelCasedStringSteps0();
    CamelCasedStringSteps4();
    CamelCasedStringTail();
  }

  lemma HttpRequestHeadSteps()
    ensures var s: Bytes := "HTTPRequest";
      StepAt(s, 0) == Step("h", 1) && StepAt(s, 1) == Step("t", 2) && StepAt(s, 2) == Step("t", 3) &&
      StepAt(s, 3) == Step("p", 4) && StepAt(s, 4) == Step("_r", 5) && StepAt(s, 5) == Step("e", 6)
  {
  }

  lemma HttpRequestTailSteps()
    ensures var s: Bytes := "HTTPRequest";
      StepAt(s, 6) == Step("q", 7) && StepAt(s, 7) == Step("u", 8) && StepAt(s, 8) == Step("e", 9) &&
      StepAt(s, 9) == Step("s", 10) && StepAt(s, 10) == Step("t", 11)
  {
  }

  lemma HttpRequestTail()
    ensures UnderscoreFrom("HTTPRequest", 6) == "quest"
  {
    HttpRequestTailSteps();
  }

  /** An acronym followed by a word: the underscore goes before the word's capital. */
  lemma SnakeHttpRequest()
    ensures Snake("HTTPRequest") == "http_request"
  {
    HttpRequestHeadSteps();
    HttpRequestTail();
  }

  lemma UserIdSteps()
    ensures var s: Bytes := "UserID";
      StepAt(s, 0) == Step("u", 1) && StepAt(s, 1) == Step("s", 2) && StepAt(s, 2) == Step("e", 3) &&
      StepAt(s, 3) == Step("r", 4) && StepAt(s, 4) == Step("_id", 6)
  {
  }

  /** A trailing "ID" becomes "_id". */
  lemma SnakeUserId()
    ensures Snake("UserID") == "user_id"
  {
    UserIdSteps();
  }

  lemma RoleIdsSteps()
    ensures var s: Bytes := "RoleIDs";
      StepAt(s, 0) == Step("r", 1) && StepAt(s, 1) == Step("o", 2) && StepAt(s, 2) == Step("l", 3) &&
      StepAt(s, 3) == Step("e", 4) && StepAt(s, 4) == Step("_ids", 7)
  {
  }

  /** The column name an array relation's `join:role_ids=id` tag refers to. */
  lemma SnakeRoleIds()
    ensures Snake("RoleIDs") == "role_ids"
  {
    RoleIdsSteps();
  }

  // ---------------------------------------------------------------------------
  // CamelCased and ToExported

  /** Byte `k` is the first byte of a word: at the start or right after a '_'. */
  predicate StartsWord(s: Bytes, k: nat)
    requires k < |s|
  {
    k == 0 || s[k - 1] == '_'
  }

  function Capitalize(c: Byte): (r: Byte)
    ensures !IsLower(c) ==> r == c
  {
    if IsLower(c) then ToUpper(c) else c
  }

  /** The CamelCased form of `s`, built from the left as the loop does. */
  function Camel(s: Bytes): Bytes
    decreases |s|
  {
    if s == [] then []
    else
      var k := |s| - 1;
      Camel(s[..k]) + (if s[k] == '_' then [] else if StartsWord(s, k) then [Capitalize(s[k])] else [s[k]])
  }

  method CamelCased(s: Bytes) returns (r: Bytes)
    ensures r == Camel(s)
  {
    r := [];
    var upperNext := true;
    var i := 0;
    while i < |s|
      invariant 0 <= i <= |s|
      invariant r == Camel(s[..i])
      invariant upperNext == (i == 0 || s[i - 1] == '_')
    {
      assert s[..i + 1][..i] == s[..i];
      var c := s[i];
      if c == '_' {
        upperNext := true;
        i := i + 1;
        continue;
      }
      if upperNext {
        if IsLower(c) {
          c := ToUpper(c);
        }
        upperNext := false;
      }
      r := r + [c];
      i := i + 1;
    }
    assert s[..|s|] == s;
  }

  lemma {:induction false} CamelHasNoUnderscore(s: Bytes)
    ensures '_' !in Camel(s)
    decreases |s|
  {
    if s != [] {
      CamelHasNoUnderscore(s[..|s| - 1]);
    }
  }

  /** The output is the input minus its underscores. */
  lemma {:induction false} CamelLength(s: Bytes)
    ensures |Camel(s)| == |s| - Count('_', s)
    decreases |s|
  {
    if s != [] {
      CamelLength(s[..|s| - 1]);
    }
  }

  lemma {:induction false} CamelPrefix(s: Bytes, m: nat)
    requires m <= |s|
    ensures Camel(s[..m]) <= Camel(s)
    decreases |s| - m
  {
    if m < |s| {
      CamelPrefix(s, m + 1);
      assert s[..m + 1][..m] == s[..m];
    } else {
      assert s[..m] == s;
    }
  }

  /**
    The kept byte at input position `k` lands right after the output of the
    bytes before it; it is capitalised exactly when it starts a word.
  */
  lemma CamelAt(s: Bytes, k: nat)
    requires k < |s| && s[k] != '_'
    ensures |Camel(s[..k])| < |Camel(s)|
    ensures Camel(s)[|Camel(s[..k])|] == if StartsWord(s, k) then Capitalize(s[k]) else s[k]
  {
    CamelPrefix(s, k + 1);
    assert s[..k + 1][..k] == s[..k];
  }

  /** `s` with its first byte capitalised when that byte is lowercase. */
  function ToExported(s: Bytes): (r: Bytes)
    ensures |r| == |s|
    ensures forall k :: 1 <= k < |s| ==> r[k] == s[k]
    ensures |s| > 0 ==> r[0] == Capitalize(s[0])
  {
    if |s| == 0 then s
    else if IsLower(s[0]) then s[0 := ToUpper(s[0])]
    else s
  }

  lemma ToExportedIdempotent(s: Bytes)
    ensures ToExported(ToExported(s)) == ToExported(s)
  {
  }

  lemma {:induction false} CamelWithoutUnderscore(s: Bytes)
    requires '_' !in s
    ensures Camel(s) == ToExported(s)
    decreases |s|
  {
    if |s| > 1 {
      CamelWithoutUnderscore(s[..|s| - 1]);
    }
  }
}
