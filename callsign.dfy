/**
 * util_canonize_callsign: reduce a callsign as heard on the air to the
 * station's own call. With slash stripping, the first `/`-separated token
 * that looks like a call (at least four characters, a digit among the first
 * three) is kept; without it, a remote call written `<...>` loses its angle
 * brackets. A missing callsign (NULL) stays missing; in every other case the
 * result is a fresh copy, which the model represents as a value.
 */
module Callsign {
  import opened Wrappers

  /** The length of the leading run of non-`/` characters of `s` */
  function RunLength(s: string): (n: nat)
    ensures n <= |s|
    ensures forall k :: 0 <= k < n ==> s[k] != '/'
    ensures n < |s| ==> s[n] == '/'
  {
    if s == [] || s[0] == '/' then 0 else 1 + RunLength(s[1..])
  }

  /** The tokens strtok(s, "/") returns in turn: the maximal non-empty runs without `/` */
  function Tokens(s: string): seq<string>
    decreases |s|
  {
    if s == [] then []
    else if s[0] == '/' then Tokens(s[1..])
    else
      var n := RunLength(s);
      [s[..n]] + Tokens(s[n..])
  }

  predicate IsDigit(c: char)
  {
    '0' <= c <= '9'
  }

  /** A token is taken as the call when it has four characters or more and a digit in one of its first three */
  predicate Qualifies(t: string)
  {
    |t| >= 4 && (IsDigit(t[0]) || IsDigit(t[1]) || IsDigit(t[2]))
  }

  /** The first token that qualifies, if any */
  function FirstQualifying(ts: seq<string>): Option<string>
  {
    if ts == [] then None
    else if Qualifies(ts[0]) then Some(ts[0])
    else FirstQualifying(ts[1..])
  }

  /** A remote call written between `<` and `>` */
  predicate Bracketed(s: string)
  {
    |s| >= 2 && s[0] == '<' && s[|s| - 1] == '>'
  }

  /** What util_canonize_callsign returns */
  function Canonize(callsign: Option<string>, stripSlashes: bool): Option<string>
  {
    match callsign
    case None => None
    case Some(s) =>
      if stripSlashes then
        match FirstQualifying(Tokens(s))
        case Some(t) => Some(t)
        case None => Some(s)
      else if Bracketed(s) then Some(s[1..|s| - 1])
      else Some(s)
  }

  /**
   * util_canonize_callsign, scanning the tokens one at a time as the strtok
   * loop does, and stopping at the first one that qualifies.
   */
  method CanonizeCallsign(callsign: Option<string>, stripSlashes: bool) returns (r: Option<string>)
    ensures r == Canonize(callsign, stripSlashes)
  {
    if callsign.None? {
      return None;
    }
    var s := callsign.value;
    var result: Option<string> := None;
    if stripSlashes {
      var i := 0;
      while i < |s| && result.None?
        invariant 0 <= i <= |s|
        invariant FirstQualifying(Tokens(s)) ==
          if result.Some? then result else FirstQualifying(Tokens(s[i..]))
        decreases |s| - i
      {
        if s[i] == '/' {
          assert s[i..][1..] == s[i + 1..];
          i := i + 1;
        } else {
          var j := i;
          while j < |s| && s[j] != '/'
            invariant i <= j <= |s|
            invariant forall k :: i <= k < j ==> s[k] != '/'
          {
            j := j + 1;
          }
          RunLengthAt(s, i, j);
          var token := s[i..j];
          if Qualifies(token) {
            result := Some(token);
          }
          i := j;
        }
      }
      if i == |s| && result.None? {
        assert s[i..] == [];
      }
    } else {
      if |s| > 0 && s[0] == '<' && s[|s| - 1] == '>' {
        result := Some(s[1..|s| - 1]);
      }
    }
    if result.None? {
      result := Some(s);
    }
    return result;
  }

  /** The run the inner scan measures is strtok's token */
  lemma RunLengthAt(s: string, i: int, j: int)
    requires 0 <= i < j <= |s| && s[i] != '/'
    requires forall k :: i <= k < j ==> s[k] != '/'
    requires j < |s| ==> s[j] == '/'
    ensures Tokens(s[i..]) == [s[i..j]] + Tokens(s[j..])
  {
    var n := RunLength(s[i..]);
    assert n == j - i;
    assert s[i..][..n] == s[i..j];
    assert s[i..][n..] == s[j..];
  }

  /** Tokens are non-empty and hold no `/` */
  lemma {:induction false} TokensWellFormed(s: string)
    ensures forall t :: t in Tokens(s) ==> |t| > 0 && '/' !in t
    decreases |s|
  {
    if s == [] {
    } else if s[0] == '/' {
      TokensWellFormed(s[1..]);
    } else {
      var n := RunLength(s);
      TokensWellFormed(s[n..]);
      assert forall k :: 0 <= k < n ==> s[..n][k] != '/';
    }
  }

  /** `/` between the tokens, as the callsign would have been written */
  function Join(ts: seq<string>): string
  {
    if ts == [] then []
    else if |ts| == 1 then ts[0]
    else ts[0] + "/" + Join(ts[1..])
  }

  /** A run of characters without `/` followed by the rest of the string */
  lemma RunLengthOfPrefix(t: string, rest: string)
    requires '/' !in t
    requires rest == [] || rest[0] == '/'
    ensures RunLength(t + rest) == |t|
    decreases |t|
  {
    if t != [] {
      assert (t + rest)[1..] == t[1..] + rest;
      RunLengthOfPrefix(t[1..], rest);
    }
  }

  /** strtok recovers the tokens a callsign was written from */
  lemma {:induction false} TokensOfJoin(ts: seq<string>)
    requires forall t :: t in ts ==> |t| > 0 && '/' !in t
    ensures Tokens(Join(ts)) == ts
  {
    if ts == [] {
    } else if |ts| == 1 {
      TokensOfRun(ts[0], []);
      assert ts[0] + [] == ts[0];
    } else {
      var rest := Join(ts[1..]);
      assert Join(ts) == ts[0] + ("/" + rest);
      TokensOfRun(ts[0], "/" + rest);
      SkipSlash(rest);
      TokensOfJoin(ts[1..]);
      assert ts == [ts[0]] + ts[1..];
    }
  }

  /** A token followed by the end or a `/` is the first token */
  lemma TokensOfRun(t: string, rest: string)
    requires |t| > 0 && '/' !in t
    requires rest == [] || rest[0] == '/'
    ensures Tokens(t + rest) == [t] + Tokens(rest)
  {
    var s := t + rest;
    RunLengthOfPrefix(t, rest);
    assert s[..|t|] == t;
    assert s[|t|..] == rest;
  }

  /** A leading `/` only separates */
  lemma SkipSlash(rest: string)
    ensures Tokens("/" + rest) == Tokens(rest)
  {
    assert ("/" + rest)[1..] == rest;
  }

  /** The token found is one that qualifies, and every token before it does not */
  lemma {:induction false} FirstQualifyingSpec(ts: seq<string>)
    ensures FirstQualifying(ts).None? <==> forall t :: t in ts ==> !Qualifies(t)
    ensures FirstQualifying(ts).Some? ==>
      exists i :: 0 <= i < |ts| && ts[i] == FirstQualifying(ts).value && Qualifies(ts[i]) &&
        forall k :: 0 <= k < i ==> !Qualifies(ts[k])
  {
    if ts != [] && !Qualifies(ts[0]) {
      FirstQualifyingSpec(ts[1..]);
      if FirstQualifying(ts[1..]).Some? {
        var i :| 0 <= i < |ts[1..]| && ts[1..][i] == FirstQualifying(ts[1..]).value && Qualifies(ts[1..][i]) &&
          forall k :: 0 <= k < i ==> !Qualifies(ts[1..][k]);
        assert ts[i + 1] == ts[1..][i];
        assert forall k :: 1 <= k < i + 1 ==> ts[k] == ts[1..][k - 1];
      }
      assert forall t :: t in ts ==> t == ts[0] || t in ts[1..];
    } else if ts != [] {
      assert ts[0] == FirstQualifying(ts).value;
    }
  }

  /** A call written alone is its own single token */
  lemma SingleToken(t: string)
    requires |t| > 0 && '/' !in t
    ensures Tokens(t) == [t]
  {
    TokensOfJoin([t]);
  }

  /** Stripping slashes twice gives what stripping once gave */
  lemma StripIdempotent(s: string)
    ensures Canonize(Canonize(Some(s), true), true) == Canonize(Some(s), true)
  {
    match FirstQualifying(Tokens(s))
    case Some(t) =>
      FirstQualifyingSpec(Tokens(s));
      TokensWellFormed(s);
      SingleToken(t);
      assert FirstQualifying([t]) == Some(t);
    case None =>
  }

  /** Without slash stripping, `<t>` gives t and every other callsign is copied unchanged */
  lemma UnwrapSpec(s: string, t: string)
    ensures Canonize(Some("<" + t + ">"), false) == Some(t)
    ensures !Bracketed(s) ==> Canonize(Some(s), false) == Some(s)
  {
    var w := "<" + t + ">";
    assert w[1..|w| - 1] == t;
  }

  /** With slash stripping, the result is the first qualifying token, or the whole callsign when none qualifies */
  lemma StripSpec(s: string)
    ensures (forall t :: t in Tokens(s) ==> !Qualifies(t)) ==> Canonize(Some(s), true) == Some(s)
    ensures Canonize(Some(s), true) != Some(s) ==>
      exists i :: 0 <= i < |Tokens(s)| && Some(Tokens(s)[i]) == Canonize(Some(s), true) &&
        Qualifies(Tokens(s)[i]) && '/' !in Tokens(s)[i] &&
        forall k :: 0 <= k < i ==> !Qualifies(Tokens(s)[k])
  {
    FirstQualifyingSpec(Tokens(s));
    TokensWellFormed(s);
  }

  /** The search looks at the first token before the others */
  lemma FirstQualifyingCons(t: string, rest: seq<string>)
    ensures FirstQualifying([t] + rest) == if Qualifies(t) then Some(t) else FirstQualifying(rest)
  {
    assert ([t] + rest)[1..] == rest;
  }

  /** A portable call such as EA/R2RFE/P: a prefix and a suffix that do not look like calls are dropped */
  lemma PortableCall(prefix: string, call: string, suffix: string)
    requires |prefix| > 0 && '/' !in prefix && !Qualifies(prefix)
    requires '/' !in call && Qualifies(call)
    requires |suffix| > 0 && '/' !in suffix
    ensures Canonize(Some(prefix + "/" + call + "/" + suffix), true) == Some(call)
  {
    var tail := "/" + suffix;
    var mid := "/" + (call + tail);
    assert prefix + "/" + call + "/" + suffix == prefix + mid;
    TokensOfRun(prefix, mid);
    SkipSlash(call + tail);
    TokensOfRun(call, tail);
    FirstQualifyingCons(prefix, Tokens(mid));
    FirstQualifyingCons(call, Tokens(tail));
  }

  /** When neither of two tokens looks like a call, as in AB/CD, the callsign is kept whole */
  lemma NoCallKept(first: string, second: string)
    requires |first| > 0 && '/' !in first && !Qualifies(first)
    requires |second| > 0 && '/' !in second && !Qualifies(second)
    ensures Canonize(Some(first + "/" + second), true) == Some(first + "/" + second)
  {
    var tail := "/" + second;
    assert first + "/" + second == first + tail;
    TokensOfRun(first, tail);
    SkipSlash(second + []);
    assert second + [] == second;
    TokensOfRun(second, []);
    FirstQualifyingCons(first, Tokens(tail));
    FirstQualifyingCons(second, []);
  }

  /** The rule on EA/R2RFE/P */
  lemma PortableExample()
    ensures Canonize(Some("EA" + "/" + "R2RFE" + "/" + "P"), true) == Some("R2RFE")
  {
    assert IsDigit("R2RFE"[1]);
    PortableCall("EA", "R2RFE", "P");
  }
}
