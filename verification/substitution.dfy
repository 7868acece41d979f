/**
  Variable substitution into a run template: Rust's `str::replace` and the fold over the bag
  that replaces every `{{key}}` token with the key's value, key by key in ascending order.
 */
module Substitution {
  import opened VarBags

  /** `pat` occurs in `s` starting at index `i`. */
  predicate StartsAt(s: string, pat: string, i: nat) {
    i <= |s| && pat <= s[i..]
  }

  /** `pat` occurs somewhere in `s`. */
  predicate Occurs(s: string, pat: string) {
    exists i: nat :: i <= |s| && StartsAt(s, pat, i)
  }

  /**
    `s.replace(pat, rep)`: scans `s` left to right and replaces each non-overlapping occurrence
    of `pat` with `rep`; text between occurrences is copied unchanged.
   */
  function ReplaceAll(s: string, pat: string, rep: string): string
    requires |pat| > 0
    decreases |s|
  {
    if |s| == 0 then s
    else if pat <= s then rep + ReplaceAll(s[|pat|..], pat, rep)
    else [s[0]] + ReplaceAll(s[1..], pat, rep)
  }

  /** Text in which `pat` never occurs comes back unchanged. */
  lemma {:induction false} ReplaceAllAbsent(s: string, pat: string, rep: string)
    requires |pat| > 0 && !Occurs(s, pat)
    ensures ReplaceAll(s, pat, rep) == s
    decreases |s|
  {
    if |s| > 0 {
      assert !(pat <= s) by {
        assert !StartsAt(s, pat, 0);
        assert s[0..] == s;
      }
      assert !Occurs(s[1..], pat) by {
        if i: nat :| i <= |s[1..]| && StartsAt(s[1..], pat, i) {
          assert s[1..][i..] == s[i + 1..];
          assert StartsAt(s, pat, i + 1);
        }
      }
      ReplaceAllAbsent(s[1..], pat, rep);
      assert s == [s[0]] + s[1..];
    }
  }

  /** Replacing a pattern by itself is the identity. */
  lemma {:induction false} ReplaceAllIdentity(s: string, pat: string)
    requires |pat| > 0
    ensures ReplaceAll(s, pat, pat) == s
    decreases |s|
  {
    if |s| > 0 {
      if pat <= s {
        ReplaceAllIdentity(s[|pat|..], pat);
        assert s == s[..|pat|] + s[|pat|..];
      } else {
        ReplaceAllIdentity(s[1..], pat);
        assert s == [s[0]] + s[1..];
      }
    }
  }

  /** The pattern on its own becomes the replacement. */
  lemma ReplaceAllWhole(pat: string, rep: string)
    requires |pat| > 0
    ensures ReplaceAll(pat, pat, rep) == rep
  {
    assert pat[|pat|..] == [];
    assert rep + [] == rep;
  }

  /**
    Positions before `n` where `pat` does not start are copied verbatim: the replacement of
    `s` is its first `n` characters followed by the replacement of the rest.
   */
  lemma {:induction false} ReplaceAllSkip(s: string, pat: string, rep: string, n: nat)
    requires |pat| > 0 && n <= |s|
    requires forall i: nat :: i < n ==> !StartsAt(s, pat, i)
    ensures ReplaceAll(s, pat, rep) == s[..n] + ReplaceAll(s[n..], pat, rep)
    decreases n
  {
    if n > 0 {
      var t := s[1..];
      assert ReplaceAll(s, pat, rep) == [s[0]] + ReplaceAll(t, pat, rep) by {
        assert !StartsAt(s, pat, 0);
        assert s[0..] == s;
      }
      assert forall i: nat :: i < n - 1 ==> !StartsAt(t, pat, i) by {
        forall i: nat | i < n - 1
          ensures !StartsAt(t, pat, i)
        {
          assert !StartsAt(s, pat, i + 1);
          assert t[i..] == s[i + 1..];
        }
      }
      ReplaceAllSkip(t, pat, rep, n - 1);
      assert t[n - 1..] == s[n..];
      assert s[..n] == [s[0]] + t[..n - 1];
    }
  }

  /**
    The first occurrence is replaced: when `pat` starts nowhere inside `s1`, the text
    `s1 + pat + s2` becomes `s1`, then `rep`, then the replacement of `s2`.
   */
  lemma ReplaceAllAfter(s1: string, pat: string, rep: string, s2: string)
    requires |pat| > 0
    requires forall i: nat :: i < |s1| ==> !StartsAt(s1 + pat + s2, pat, i)
    ensures ReplaceAll(s1 + pat + s2, pat, rep) == s1 + rep + ReplaceAll(s2, pat, rep)
  {
    var s := s1 + pat + s2;
    ReplaceAllSkip(s, pat, rep, |s1|);
    assert s[..|s1|] == s1;
    assert s[|s1|..] == pat + s2;
    assert (pat + s2)[|pat|..] == s2;
  }

  /** The token `{{key}}` that `format!("{{{{{}}}}}", key)` builds. */
  function Token(key: string): string {
    "{{" + key + "}}"
  }

  /**
    The script text run for a template: every `{{key}}` replaced by the key's value, one key
    at a time in ascending key order, each replacement working on the previous one's output.
   */
  function Substitute(bag: VarBag, template: string): string
    decreases |bag|
  {
    if |bag| == 0 then template
    else Substitute(bag[1..], ReplaceAll(template, Token(bag[0].0), bag[0].1))
  }

  /**
    When no key's token occurs in the template the script is the template itself: a
    `{{name}}` that names no bag key stays verbatim, and an empty bag changes nothing.
   */
  lemma {:induction false} SubstituteUntouched(bag: VarBag, template: string)
    requires forall k :: k in Keys(bag) ==> !Occurs(template, Token(k))
    ensures Substitute(bag, template) == template
    decreases |bag|
  {
    if |bag| > 0 {
      ReplaceAllAbsent(template, Token(bag[0].0), bag[0].1);
      SubstituteUntouched(bag[1..], template);
    }
  }

  /** With an empty bag the script is the template unchanged. */
  lemma EmptyBagKeepsTemplate(template: string)
    ensures Substitute(Empty, template) == template
  {
  }

  /** A bag holding one key replaces exactly that key's token. */
  lemma SingleKey(k: string, v: string, template: string)
    ensures Substitute(Insert(Empty, k, v), template) == ReplaceAll(template, Token(k), v)
  {
  }
}
