// The string checks that several requests share (src/utils.cc:161-170).
module Texts {
  /** utils::Trim with its default character: spaces at both ends go. */
  function Trim(s: string): string {
    if s == "" then ""
    else if s[0] == ' ' then Trim(s[1..])
    else if s[|s| - 1] == ' ' then Trim(s[..|s| - 1])
    else s
  }

  /** utils::CheckNonEmptyString: what an upload ID must pass for any request that names it. */
  predicate Usable(id: string) {
    id != "" && Trim(id) == id
  }

  /** Only strings without a space at either end pass. */
  lemma UsableIsTrimmed(id: string)
    ensures Usable(id) <==> id != "" && id[0] != ' ' && id[|id| - 1] != ' '
  {
    TrimShortens(id);
  }

  lemma {:induction false} TrimShortens(s: string)
    ensures |Trim(s)| <= |s|
    ensures s != "" && (s[0] == ' ' || s[|s| - 1] == ' ') ==> |Trim(s)| < |s|
    decreases |s|
  {
    if s != "" {
      if s[0] == ' ' {
        TrimShortens(s[1..]);
      } else if s[|s| - 1] == ' ' {
        TrimShortens(s[..|s| - 1]);
      }
    }
  }

  /**
   * Trimming leaves the stretch between the spaces at both ends: all outside it is space, and its
   * own ends are not.
   */
  lemma {:induction false} TrimIsLongest(s: string) returns (p: nat, q: nat)
    ensures p <= q <= |s| && Trim(s) == s[p..q]
    ensures forall i :: 0 <= i < p || q <= i < |s| ==> s[i] == ' '
    ensures p < q ==> s[p] != ' ' && s[q - 1] != ' '
    decreases |s|
  {
    p, q := 0, |s|;
    if s != "" {
      if s[0] == ' ' {
        p, q := TrimIsLongest(s[1..]);
        assert s[1..][p..q] == s[p + 1..q + 1];
        forall i | 0 <= i < p + 1 || q + 1 <= i < |s| ensures s[i] == ' ' {
          assert i > 0 ==> s[i] == s[1..][i - 1];
        }
        p, q := p + 1, q + 1;
      } else if s[|s| - 1] == ' ' {
        var t := s[..|s| - 1];
        p, q := TrimIsLongest(t);
        assert t[p..q] == s[p..q];
        forall i | 0 <= i < p || q <= i < |s| ensures s[i] == ' ' {
          assert i < |t| ==> s[i] == t[i];
        }
      }
    }
  }
}
