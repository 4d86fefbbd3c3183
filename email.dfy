/**
  The e-mail check of the registration form, the regular expression
  `^[\w-.]+@([\w-]+\.)+[\w-]{2,}$` (JavaScript, no flags): `\w` is `[A-Za-z0-9_]`
  and `-` stands for itself in `[\w-.]` and `[\w-]`. The language of the expression
  is stated declaratively over positions of the string (`EmailSpec`); `MatchEmail`
  is a hand-written recognizer for it, and `MatchEmailCorrect` proves the two agree
  on every string.
 */
module Email {

  /** `\w`. */
  predicate IsWordChar(c: char) {
    ('A' <= c <= 'Z') || ('a' <= c <= 'z') || ('0' <= c <= '9') || c == '_'
  }

  /** `[\w-.]`, a character of the part before `@`. */
  predicate IsLocalChar(c: char) {
    IsWordChar(c) || c == '-' || c == '.'
  }

  /** `[\w-]`, a character of a domain label. */
  predicate IsLabelChar(c: char) {
    IsWordChar(c) || c == '-'
  }

  /** `s[lo..hi]` matches `[\w-.]*`. */
  predicate LocalChars(s: string, lo: nat, hi: nat)
    requires lo <= hi <= |s|
  {
    forall k | lo <= k < hi :: IsLocalChar(s[k])
  }

  /** `s[lo..hi]` matches `[\w-]*`. */
  predicate LabelChars(s: string, lo: nat, hi: nat)
    requires lo <= hi <= |s|
  {
    forall k | lo <= k < hi :: IsLabelChar(s[k])
  }

  /**
    `s[lo..hi]` matches `([\w-]+\.)+`: one or more labels, each followed by a dot.
    Equivalently: it starts with a label character, ends with a dot, holds only
    label characters and dots, and no dot follows another.
   */
  predicate DottedLabels(s: string, lo: nat, hi: nat)
    requires lo <= hi <= |s|
  {
    && hi - lo >= 2
    && IsLabelChar(s[lo])
    && s[hi - 1] == '.'
    && (forall k | lo <= k < hi :: IsLabelChar(s[k]) || s[k] == '.')
    && (forall k | lo < k < hi :: s[k] == '.' ==> s[k - 1] != '.')
  }

  /** `s[lo..]` matches `([\w-]+\.)+[\w-]{2,}`. */
  predicate DomainSpec(s: string, lo: nat)
    requires lo <= |s|
  {
    exists j | lo < j <= |s| - 2 :: DottedLabels(s, lo, j) && LabelChars(s, j, |s|)
  }

  /** The whole expression, anchored at both ends: `[\w-.]+`, `@`, then the domain. */
  predicate EmailSpec(s: string) {
    exists i | 0 < i < |s| :: s[i] == '@' && LocalChars(s, 0, i) && DomainSpec(s, i + 1)
  }

  /** End of the longest run of label characters starting at `i`. */
  function LabelEnd(s: string, i: nat): (n: nat)
    requires i <= |s|
    ensures i <= n <= |s|
    ensures LabelChars(s, i, n)
    ensures n < |s| ==> !IsLabelChar(s[n])
    decreases |s| - i
  {
    if i < |s| && IsLabelChar(s[i]) then LabelEnd(s, i + 1) else i
  }

  /** End of the longest run of local-part characters starting at `i`. */
  function LocalEnd(s: string, i: nat): (n: nat)
    requires i <= |s|
    ensures i <= n <= |s|
    ensures LocalChars(s, i, n)
    ensures n < |s| ==> !IsLocalChar(s[n])
    decreases |s| - i
  {
    if i < |s| && IsLocalChar(s[i]) then LocalEnd(s, i + 1) else i
  }

  /**
    Recognizes the domain from position `i`: reads a label; at the end of the input
    the last label must have at least two characters and a dot must have been seen;
    otherwise the label must be non-empty and followed by a dot, and the rest is read
    the same way.
   */
  function MatchDomain(s: string, i: nat, sawDot: bool): bool
    requires i <= |s|
    decreases |s| - i
  {
    var k := LabelEnd(s, i);
    if k == |s| then sawDot && k - i >= 2
    else i < k && s[k] == '.' && MatchDomain(s, k + 1, true)
  }

  /** Recognizes a whole address: the local part up to the first character that cannot be in it, `@`, a domain. */
  function MatchEmail(s: string): bool {
    var k := LocalEnd(s, 0);
    0 < k < |s| && s[k] == '@' && MatchDomain(s, k + 1, false)
  }

  /** A domain needs a dot that ends a non-empty label, so a run of labels not closed that way is none. */
  lemma NoDomainWithoutDot(s: string, i: nat, k: nat)
    requires i <= k <= |s| && LabelChars(s, i, k)
    requires k == |s| || (!IsLabelChar(s[k]) && (k == i || s[k] != '.'))
    ensures !DomainSpec(s, i)
  {
  }

  /** Splitting off the first label and its dot: the rest is more dotted labels, or the last label. */
  lemma DomainAfterFirstLabel(s: string, i: nat, k: nat)
    requires i < k < |s| && LabelChars(s, i, k) && s[k] == '.'
    requires DomainSpec(s, i)
    ensures DomainSpec(s, k + 1) || (|s| - (k + 1) >= 2 && LabelChars(s, k + 1, |s|))
  {
    var j :| i < j <= |s| - 2 && DottedLabels(s, i, j) && LabelChars(s, j, |s|);
    assert k < j by {
      assert !IsLabelChar(s[k]);
    }
    if j > k + 1 {
      assert s[k + 1] != '.';
      assert DottedLabels(s, k + 1, j);
    }
  }

  /** Putting a label and its dot in front of a domain, or of a final label, gives a domain. */
  lemma DomainBeforeRest(s: string, i: nat, k: nat)
    requires i < k < |s| && LabelChars(s, i, k) && s[k] == '.'
    requires DomainSpec(s, k + 1) || (|s| - (k + 1) >= 2 && LabelChars(s, k + 1, |s|))
    ensures DomainSpec(s, i)
  {
    if DomainSpec(s, k + 1) {
      var j :| k + 1 < j <= |s| - 2 && DottedLabels(s, k + 1, j) && LabelChars(s, j, |s|);
      assert DottedLabels(s, i, j);
    } else {
      assert DottedLabels(s, i, k + 1);
    }
  }

  /**
    From position `i` the domain recognizer accepts exactly `DomainSpec`, and, once a
    dot has been seen, also a lone final label of at least two characters.
   */
  lemma {:induction false} MatchDomainCorrect(s: string, i: nat, sawDot: bool)
    requires i <= |s|
    ensures MatchDomain(s, i, sawDot) <==> DomainSpec(s, i) || (sawDot && |s| - i >= 2 && LabelChars(s, i, |s|))
    decreases |s| - i
  {
    var k := LabelEnd(s, i);
    if k == |s| || k == i || s[k] != '.' {
      NoDomainWithoutDot(s, i, k);
    } else {
      MatchDomainCorrect(s, k + 1, true);
      if DomainSpec(s, i) {
        DomainAfterFirstLabel(s, i, k);
      }
      if MatchDomain(s, i, sawDot) {
        DomainBeforeRest(s, i, k);
      }
    }
  }

  /** The recognizer accepts exactly the strings the regular expression matches. */
  lemma MatchEmailCorrect(s: string)
    ensures MatchEmail(s) <==> EmailSpec(s)
  {
    var k := LocalEnd(s, 0);
    if 0 < k < |s| && s[k] == '@' {
      MatchDomainCorrect(s, k + 1, false);
    }
    if EmailSpec(s) {
      var i :| 0 < i < |s| && s[i] == '@' && LocalChars(s, 0, i) && DomainSpec(s, i + 1);
      assert !IsLocalChar(s[i]);
      assert k == i;
      MatchDomainCorrect(s, i + 1, false);
    }
  }
}
