/** JavaScript's String.prototype.trim, as the add-task handler uses it to
    decide whether the input box holds anything but whitespace. */
module JsText {

  /** The characters trim removes: ECMAScript's WhiteSpace set (tab, vertical
      tab, form feed, space, no-break space, the byte-order mark and the
      Unicode space separators) and its LineTerminator set. */
  predicate IsTrimmable(c: char) {
    c == '\t' || c == '\n' || c == '\U{B}' || c == '\U{C}' || c == '\r' || c == ' '
    || c == '\U{A0}' || c == '\U{1680}' || ('\U{2000}' <= c <= '\U{200A}')
    || c == '\U{2028}' || c == '\U{2029}' || c == '\U{202F}' || c == '\U{205F}'
    || c == '\U{3000}' || c == '\U{FEFF}'
  }

  predicate AllTrimmable(s: string) {
    forall i :: 0 <= i < |s| ==> IsTrimmable(s[i])
  }

  /** Drops the leading run of trimmable characters. */
  function TrimStart(s: string): string {
    if s != [] && IsTrimmable(s[0]) then TrimStart(s[1..]) else s
  }

  /** Drops the trailing run of trimmable characters. */
  function TrimEnd(s: string): string {
    if s != [] && IsTrimmable(s[|s| - 1]) then TrimEnd(s[..|s| - 1]) else s
  }

  function Trim(s: string): string {
    TrimEnd(TrimStart(s))
  }

  /** Length of the leading run of trimmable characters. */
  function LeadLength(s: string): (n: nat)
    ensures n <= |s|
  {
    if s != [] && IsTrimmable(s[0]) then 1 + LeadLength(s[1..]) else 0
  }

  /** Length of the trailing run of trimmable characters. */
  function TrailLength(s: string): (n: nat)
    ensures n <= |s|
  {
    if s != [] && IsTrimmable(s[|s| - 1]) then 1 + TrailLength(s[..|s| - 1]) else 0
  }

  /** TrimStart removes exactly the maximal trimmable prefix. */
  lemma {:induction false} TrimStartDropsLead(s: string)
    ensures TrimStart(s) == s[LeadLength(s)..]
    ensures AllTrimmable(s[..LeadLength(s)])
    ensures LeadLength(s) < |s| ==> !IsTrimmable(s[LeadLength(s)])
  {
    if s != [] && IsTrimmable(s[0]) {
      var i := LeadLength(s[1..]);
      TrimStartDropsLead(s[1..]);
      assert s[1..][i..] == s[i + 1..];
      forall k | 0 <= k < i + 1
        ensures IsTrimmable(s[k])
      {
        if k > 0 {
          assert s[k] == s[1..][..i][k - 1];
        }
      }
      assert AllTrimmable(s[..i + 1]);
    }
  }

  /** TrimEnd removes exactly the maximal trimmable suffix. */
  lemma {:induction false} TrimEndDropsTrail(s: string)
    ensures TrimEnd(s) == s[..|s| - TrailLength(s)]
    ensures AllTrimmable(s[|s| - TrailLength(s)..])
    ensures TrailLength(s) < |s| ==> !IsTrimmable(s[|s| - TrailLength(s) - 1])
  {
    if s != [] && IsTrimmable(s[|s| - 1]) {
      var front := s[..|s| - 1];
      var j := |front| - TrailLength(front);
      TrimEndDropsTrail(front);
      assert front[..j] == s[..j];
      forall k | 0 <= k < |s| - j
        ensures IsTrimmable(s[j..][k])
      {
        if k < |s| - 1 - j {
          assert s[j..][k] == front[j..][k];
        }
      }
    }
  }

  /** Trim yields the infix of s left after removing the maximal trimmable
      prefix and suffix: it neither starts nor ends with a trimmable character. */
  lemma TrimIsInfix(s: string)
    ensures exists i, j :: 0 <= i <= j <= |s| && Trim(s) == s[i..j]
                           && AllTrimmable(s[..i]) && AllTrimmable(s[j..])
                           && (i < j ==> !IsTrimmable(s[i]) && !IsTrimmable(s[j - 1]))
  {
    var i := LeadLength(s);
    TrimStartDropsLead(s);
    var rest := s[i..];
    var j := i + |rest| - TrailLength(rest);
    TrimEndDropsTrail(rest);
    assert Trim(s) == s[i..j] by {
      assert rest[..j - i] == s[i..j];
    }
    assert AllTrimmable(s[j..]) by {
      assert s[j..] == rest[j - i..];
    }
    assert i < j ==> s[j - 1] == rest[j - i - 1];
  }

  /** `s.trim()` is falsy (the empty string) exactly when every character of s
      is whitespace or a line terminator; in particular for "" and "   ". */
  lemma TrimEmptyIffBlank(s: string)
    ensures Trim(s) == [] <==> AllTrimmable(s)
  {
    TrimIsInfix(s);
    var i, j :| 0 <= i <= j <= |s| && Trim(s) == s[i..j]
                && AllTrimmable(s[..i]) && AllTrimmable(s[j..])
                && (i < j ==> !IsTrimmable(s[i]) && !IsTrimmable(s[j - 1]));
    if Trim(s) == [] {
      forall k | 0 <= k < |s|
        ensures IsTrimmable(s[k])
      {
        if k < i {
          assert s[k] == s[..i][k];
        } else {
          assert s[k] == s[j..][k - j];
        }
      }
    }
  }
}
