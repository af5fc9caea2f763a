/**
 * The conversion rule table: a map from source extension to destination extension,
 * resolved with a fallback to the default destination and edited by the rule editor's
 * add and delete buttons.
 */
module Rules {
  import opened Text
  import opened Catalog

  type RuleTable = map<string, string>

  /**
   * The normal form of a rule-editor entry, `value.strip().lower()`: the middle of the
   * entry, with only white space dropped before and after it, lower-cased.
   */
  function Normalize(s: string): (r: string)
    ensures exists i, j :: Trimmed(s, i, j) && r == Lower(s[i..j])
    ensures IsLowercase(r)
    ensures r == [] || (!IsSpace(r[0]) && !IsSpace(r[|r| - 1]))
  {
    var t := Strip(s);
    assert t != [] ==> !IsSpace(LowerChar(t[0])) && !IsSpace(LowerChar(t[|t| - 1])) by {
      if t != [] {
        LowerCharSpace(t[0]);
        LowerCharSpace(t[|t| - 1]);
      }
    }
    assert exists i, j :: Trimmed(s, i, j) && Lower(t) == Lower(s[i..j]) by {
      var i, j :| Trimmed(s, i, j) && t == s[i..j];
    }
    Lower(t)
  }

  /** A key or value as the rule editor stores it: non-empty and already normalized. */
  predicate IsNormalized(s: string) {
    s != [] && Normalize(s) == s
  }

  /** Every entry of the table is in normal form, as every entry the editor adds is. */
  predicate AllNormalized(rules: RuleTable) {
    forall k :: k in rules ==> IsNormalized(k) && IsNormalized(rules[k])
  }

  /** `rules.get(ext, DEFAULT_FORMAT)`: the destination for a source extension; never fails. */
  function Resolve(rules: RuleTable, ext: string): (dst: string)
    ensures ext in rules ==> dst == rules[ext]
    ensures ext !in rules ==> dst == DefaultFormat
  {
    if ext in rules then rules[ext] else DefaultFormat
  }

  /**
   * The table after the add button: both entries are stripped and lower-cased; when either
   * is then empty nothing changes, otherwise the source now maps to the destination
   * (overwriting any earlier rule) and every other key keeps its value.
   */
  function WithRule(rules: RuleTable, srcInput: string, dstInput: string): (r: RuleTable)
    ensures Normalize(srcInput) == [] || Normalize(dstInput) == [] ==> r == rules
    ensures Normalize(srcInput) != [] && Normalize(dstInput) != [] ==>
      && r.Keys == rules.Keys + {Normalize(srcInput)}
      && r[Normalize(srcInput)] == Normalize(dstInput)
      && forall k :: k in rules && k != Normalize(srcInput) ==> r[k] == rules[k]
  {
    var src := Normalize(srcInput);
    var dst := Normalize(dstInput);
    if src != [] && dst != [] then rules[src := dst] else rules
  }

  /**
   * The table after the delete button for the selected source: that key is gone (there is
   * no error when it was absent) and every other entry is unchanged.
   */
  function WithoutRule(rules: RuleTable, src: string): (r: RuleTable)
    ensures r.Keys == rules.Keys - {src}
    ensures forall k :: k in r ==> r[k] == rules[k]
    ensures src !in rules ==> r == rules
  {
    if src in rules then rules - {src} else rules
  }

  /** Normalizing twice is normalizing once. */
  lemma {:induction false} NormalizeIdempotent(s: string)
    ensures Normalize(Normalize(s)) == Normalize(s)
  {
    var t := Strip(s);
    var n := Normalize(s);
    assert n == Lower(t);
    StripOfTrimmed(t);
    StripLowerOfTrimmed(t);
    LowerIdempotent(t);
  }

  /** After adding a rule, its source resolves to its destination and other sources resolve as before. */
  lemma ResolveAfterAdd(rules: RuleTable, srcInput: string, dstInput: string, ext: string)
    ensures Resolve(WithRule(rules, srcInput, dstInput), ext) ==
      if Normalize(srcInput) != [] && Normalize(dstInput) != [] && ext == Normalize(srcInput)
      then Normalize(dstInput)
      else Resolve(rules, ext)
  {
  }

  /** After deleting a rule, its source falls back to the default and other sources resolve as before. */
  lemma ResolveAfterDelete(rules: RuleTable, src: string, ext: string)
    ensures Resolve(WithoutRule(rules, src), ext) == if ext == src then DefaultFormat else Resolve(rules, ext)
  {
  }

  /** Re-entering an already normalized rule adds the same rule: normalization is stable. */
  lemma {:induction false} WithRuleOfNormalized(rules: RuleTable, srcInput: string, dstInput: string)
    ensures WithRule(rules, Normalize(srcInput), Normalize(dstInput)) == WithRule(rules, srcInput, dstInput)
  {
    NormalizeIdempotent(srcInput);
    NormalizeIdempotent(dstInput);
  }

  /** Adding a rule keeps a table of normalized entries normalized. */
  lemma {:induction false} WithRuleKeepsNormalized(rules: RuleTable, srcInput: string, dstInput: string)
    requires AllNormalized(rules)
    ensures AllNormalized(WithRule(rules, srcInput, dstInput))
  {
    var src, dst := Normalize(srcInput), Normalize(dstInput);
    if src != [] && dst != [] {
      var r := WithRule(rules, srcInput, dstInput);
      forall k | k in r ensures IsNormalized(k) && IsNormalized(r[k]) {
        if k == src {
          NormalizeIdempotent(srcInput);
          NormalizeIdempotent(dstInput);
        } else {
          assert k in rules && r[k] == rules[k];
        }
      }
    }
  }

  /** Deleting a rule keeps a table of normalized entries normalized. */
  lemma WithoutRuleKeepsNormalized(rules: RuleTable, src: string)
    requires AllNormalized(rules)
    ensures AllNormalized(WithoutRule(rules, src))
  {
  }
}
