/**
 * The string handling of the job: Python's `str.strip()`, the composed
 * message `f"{prefix} {message}".strip()` and the token filter
 * `[t.strip() for t in tokens if t.strip()]`.
 *
 * The functions carry no postconditions; what they guarantee is stated by
 * the lemmas after them.
 */
module Text {

  /** The characters `str.isspace()` accepts, which are the ones `str.strip()` removes. */
  predicate IsSpace(c: char) {
    || ('\t' <= c <= '\r')
    || ('\U{1C}' <= c <= '\U{1F}')
    || c == ' '
    || c == '\U{85}'
    || c == '\U{A0}'
    || c == '\U{1680}'
    || ('\U{2000}' <= c <= '\U{200A}')
    || c == '\U{2028}'
    || c == '\U{2029}'
    || c == '\U{202F}'
    || c == '\U{205F}'
    || c == '\U{3000}'
  }

  /** Every character is whitespace (the empty string included). */
  predicate IsBlank(s: string) {
    forall i :: 0 <= i < |s| ==> IsSpace(s[i])
  }

  /** No leading and no trailing whitespace. */
  predicate Trimmed(s: string) {
    s == [] || (!IsSpace(s[0]) && !IsSpace(s[|s| - 1]))
  }

  /** `s.lstrip()`: the leading whitespace removed. */
  function StripStart(s: string): string
    decreases |s|
  {
    if s != [] && IsSpace(s[0]) then StripStart(s[1..]) else s
  }

  /** `s.rstrip()`: the trailing whitespace removed. */
  function StripEnd(s: string): string
    decreases |s|
  {
    if s != [] && IsSpace(s[|s| - 1]) then StripEnd(s[..|s| - 1]) else s
  }

  /** Python's `s.strip()` with no argument. */
  function Strip(s: string): string {
    StripEnd(StripStart(s))
  }

  lemma BlankAppend(a: string, b: string)
    requires IsBlank(a) && IsBlank(b)
    ensures IsBlank(a + b)
  {
    forall i | 0 <= i < |a + b| ensures IsSpace((a + b)[i]) {
      if i >= |a| {
        assert (a + b)[i] == b[i - |a|];
      }
    }
  }

  /** `lstrip` removes a blank prefix and stops at the first other character. */
  lemma {:induction false} StripStartSplits(s: string) returns (before: string)
    ensures IsBlank(before) && s == before + StripStart(s)
    ensures StripStart(s) == [] || !IsSpace(StripStart(s)[0])
    decreases |s|
  {
    if s != [] && IsSpace(s[0]) {
      var rest := StripStartSplits(s[1..]);
      before := [s[0]] + rest;
      BlankAppend([s[0]], rest);
      assert s == [s[0]] + s[1..];
    } else {
      before := [];
      assert s == [] + s;
    }
  }

  /** `rstrip` removes a blank suffix and stops at the last other character. */
  lemma {:induction false} StripEndSplits(s: string) returns (after: string)
    ensures IsBlank(after) && s == StripEnd(s) + after
    ensures StripEnd(s) == [] || !IsSpace(StripEnd(s)[|StripEnd(s)| - 1])
    decreases |s|
  {
    if s != [] && IsSpace(s[|s| - 1]) {
      var init := s[..|s| - 1];
      var rest := StripEndSplits(init);
      after := rest + [s[|s| - 1]];
      BlankAppend(rest, [s[|s| - 1]]);
      assert s == init + [s[|s| - 1]];
    } else {
      after := [];
      assert s == s + [];
    }
  }

  /** `lstrip` of a blank string is empty. */
  lemma {:induction false} StripStartBlank(s: string)
    requires IsBlank(s)
    ensures StripStart(s) == []
    decreases |s|
  {
    if s != [] {
      StripStartBlank(s[1..]);
    }
  }

  /** `lstrip` removes exactly a blank prefix that is followed by a non-space. */
  lemma {:induction false} StripStartPadded(before: string, rest: string)
    requires IsBlank(before)
    requires rest == [] || !IsSpace(rest[0])
    ensures StripStart(before + rest) == rest
    decreases |before|
  {
    if before == [] {
      assert before + rest == rest;
    } else {
      assert (before + rest)[1..] == before[1..] + rest;
      StripStartPadded(before[1..], rest);
    }
  }

  /** `rstrip` removes exactly a blank suffix that follows a non-space. */
  lemma {:induction false} StripEndPadded(rest: string, after: string)
    requires IsBlank(after)
    requires rest == [] || !IsSpace(rest[|rest| - 1])
    ensures StripEnd(rest + after) == rest
    decreases |after|
  {
    if after == [] {
      assert rest + after == rest;
    } else {
      var init := after[..|after| - 1];
      assert (rest + after)[..|rest + after| - 1] == rest + init;
      StripEndPadded(rest, init);
    }
  }

  /** Stripping only removes whitespace, and only at the two ends. */
  lemma StripSplits(s: string) returns (before: string, after: string)
    ensures IsBlank(before) && IsBlank(after)
    ensures s == before + Strip(s) + after
  {
    before := StripStartSplits(s);
    after := StripEndSplits(StripStart(s));
  }

  /** What `strip` guarantees: no whitespace left at either end, never longer, and empty exactly for blank input. */
  lemma StripTrims(s: string)
    ensures Trimmed(Strip(s))
    ensures |Strip(s)| <= |s|
    ensures Strip(s) == [] <==> IsBlank(s)
  {
    var before := StripStartSplits(s);
    var mid := StripStart(s);
    var after := StripEndSplits(mid);
    var r := Strip(s);
    if r != [] {
      // The first character of `r` is the first character of `mid`, which is not a space.
      assert mid[0] == r[0];
    }
    if r == [] {
      assert s == before + after;
      BlankAppend(before, after);
    }
    if IsBlank(s) {
      StripStartBlank(s);
    }
  }

  /** The converse of StripSplits: whitespace padded around a trimmed string is exactly what strip removes. */
  lemma StripPadded(before: string, core: string, after: string)
    requires IsBlank(before) && IsBlank(after) && Trimmed(core)
    ensures Strip(before + core + after) == core
  {
    var s := before + core + after;
    if core == [] {
      assert s == before + after;
      BlankAppend(before, after);
      StripStartBlank(s);
    } else {
      assert s == before + (core + after);
      StripStartPadded(before, core + after);
      StripEndPadded(core, after);
    }
  }

  /** Stripping twice is stripping once. */
  lemma StripIdempotent(s: string)
    ensures Strip(Strip(s)) == Strip(s)
  {
    StripTrims(s);
    StripPadded([], Strip(s), []);
    assert [] + Strip(s) + [] == Strip(s);
  }

  /** Python's `f"{prefix} {message}".strip()`: the message actually posted. */
  function ComposeMessage(prefix: string, body: string): string {
    Strip(prefix + " " + body)
  }

  /** The posted message has no whitespace at either end. */
  lemma ComposeTrimmed(prefix: string, body: string)
    ensures Trimmed(ComposeMessage(prefix, body))
  {
    StripTrims(prefix + " " + body);
  }

  /** With the default empty prefix the posted message is the stripped message line. */
  lemma ComposeWithoutPrefix(body: string)
    ensures ComposeMessage("", body) == Strip(body)
  {
    var before, after := StripSplits(body);
    var core := Strip(body);
    StripTrims(body);
    BlankAppend(" ", before);
    assert "" + " " + body == (" " + before) + core + after;
    StripPadded(" " + before, core, after);
  }

  /** A blank message line is posted as the stripped prefix alone (an empty message when there is no prefix). */
  lemma ComposeBlankLine(prefix: string, body: string)
    requires IsBlank(body)
    ensures ComposeMessage(prefix, body) == Strip(prefix)
  {
    var before, after := StripSplits(prefix);
    var core := Strip(prefix);
    StripTrims(prefix);
    BlankAppend(after, " ");
    BlankAppend(after + " ", body);
    assert prefix + " " + body == before + core + (after + " " + body);
    StripPadded(before, core, after + " " + body);
  }

  /** A non-empty trimmed prefix and body are joined with exactly one space and nothing is removed. */
  lemma ComposeTrimmedParts(prefix: string, body: string)
    requires prefix != [] && Trimmed(prefix)
    requires body != [] && Trimmed(body)
    ensures ComposeMessage(prefix, body) == prefix + " " + body
  {
    var s := prefix + " " + body;
    assert s[0] == prefix[0] && s[|s| - 1] == body[|body| - 1];
    StripPadded([], s, []);
    assert [] + s + [] == s;
  }

  /** `[t.strip() for t in ts if t.strip()]`: the non-blank tokens, stripped, in their order. */
  function NormaliseTokens(ts: seq<string>): seq<string>
    decreases |ts|
  {
    if ts == [] then []
    else
      var t := Strip(ts[0]);
      var tail := NormaliseTokens(ts[1..]);
      if t == [] then tail else [t] + tail
  }

  /** Every kept token is non-empty and trimmed, and nothing is kept exactly when every token is blank. */
  lemma {:induction false} NormaliseShape(ts: seq<string>)
    ensures |NormaliseTokens(ts)| <= |ts|
    ensures forall k :: 0 <= k < |NormaliseTokens(ts)| ==> NormaliseTokens(ts)[k] != [] && Trimmed(NormaliseTokens(ts)[k])
    ensures NormaliseTokens(ts) == [] <==> forall k :: 0 <= k < |ts| ==> IsBlank(ts[k])
    decreases |ts|
  {
    if ts != [] {
      NormaliseShape(ts[1..]);
      StripTrims(ts[0]);
      AllBlankSplit(ts);
    }
  }

  lemma AllBlankSplit(ts: seq<string>)
    requires ts != []
    ensures (forall k :: 0 <= k < |ts| ==> IsBlank(ts[k])) <==>
            IsBlank(ts[0]) && forall k :: 0 <= k < |ts[1..]| ==> IsBlank(ts[1..][k])
  {
    if IsBlank(ts[0]) && forall k :: 0 <= k < |ts[1..]| ==> IsBlank(ts[1..][k]) {
      forall k | 0 <= k < |ts| ensures IsBlank(ts[k]) {
        if k > 0 { assert ts[k] == ts[1..][k - 1]; }
      }
    }
  }

  /** The filter keeps order: normalising a concatenation concatenates the normalised parts. */
  lemma {:induction false} NormaliseAppend(a: seq<string>, b: seq<string>)
    ensures NormaliseTokens(a + b) == NormaliseTokens(a) + NormaliseTokens(b)
  {
    if a == [] {
      assert a + b == b;
    } else {
      assert (a + b)[0] == a[0];
      assert (a + b)[1..] == a[1..] + b;
      NormaliseAppend(a[1..], b);
    }
  }

  /** A token survives exactly when it is not blank, and then it survives stripped. */
  lemma {:induction false} NormaliseMembers(ts: seq<string>, x: string)
    ensures x in NormaliseTokens(ts) <==> exists k :: 0 <= k < |ts| && !IsBlank(ts[k]) && Strip(ts[k]) == x
  {
    if ts != [] {
      StripTrims(ts[0]);
      NormaliseMembers(ts[1..], x);
      if x in NormaliseTokens(ts[1..]) {
        var k :| 0 <= k < |ts[1..]| && !IsBlank(ts[1..][k]) && Strip(ts[1..][k]) == x;
        assert ts[k + 1] == ts[1..][k];
      }
      if exists k :: 0 <= k < |ts| && !IsBlank(ts[k]) && Strip(ts[k]) == x {
        var k :| 0 <= k < |ts| && !IsBlank(ts[k]) && Strip(ts[k]) == x;
        if k > 0 {
          assert ts[1..][k - 1] == ts[k];
        }
      }
    }
  }

  /** Normalising an already normalised list changes nothing (the handler and the worker both apply it). */
  lemma {:induction false} NormaliseIdempotent(ts: seq<string>)
    ensures NormaliseTokens(NormaliseTokens(ts)) == NormaliseTokens(ts)
  {
    if ts != [] {
      var t := Strip(ts[0]);
      NormaliseIdempotent(ts[1..]);
      if t != [] {
        StripIdempotent(ts[0]);
        NormaliseAppend([t], NormaliseTokens(ts[1..]));
      } else {
        assert NormaliseTokens(ts) == NormaliseTokens(ts[1..]);
      }
    }
  }

  /** One token normalises to itself stripped, or to nothing when it is blank. */
  lemma NormaliseSingle(t: string)
    ensures NormaliseTokens([t]) == if IsBlank(t) then [] else [Strip(t)]
  {
    StripTrims(t);
    assert [t][1..] == [];
  }

  /**
   * Duplicates are not merged: a non-blank token given twice after any
   * other tokens is used twice, stripped, after what those others give.
   */
  lemma DuplicatesKept(ts: seq<string>, t: string)
    requires !IsBlank(t)
    ensures NormaliseTokens(ts + [t, t]) == NormaliseTokens(ts) + [Strip(t), Strip(t)]
  {
    NormaliseAppend(ts, [t, t]);
    assert [t] + [t] == [t, t];
    NormaliseAppend([t], [t]);
    NormaliseSingle(t);
  }
}
