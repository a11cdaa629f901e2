/**
 * The nickname rules (SwitchNicknameService): each rule pairs a keyword
 * with nicknames, and a switch name collects the nicknames of every rule
 * whose keyword it contains, ignoring letter case.
 */
module Nicknames {
  import opened Wrappers
  import opened Text

  /** One entry of the nickname table. */
  datatype NicknameRule = NicknameRule(keyword: string, nicknames: seq<string>)

  /** A rule applies to a name already lower-cased when the name contains
    * the rule's keyword lower-cased. */
  predicate Matches(rule: NicknameRule, lowerName: string) {
    Contains(lowerName, ToLowerAscii(rule.keyword))
  }

  /** The nicknames `rules` give a lower-cased name: a matching rule adds
    * all of its nicknames, the others add nothing, in rule order. */
  function Collected(rules: seq<NicknameRule>, lowerName: string): seq<string> {
    if rules == [] then []
    else
      var last := rules[|rules| - 1];
      Collected(rules[..|rules| - 1], lowerName) + (if Matches(last, lowerName) then last.nicknames else [])
  }

  /** What `getNicknames(switchName)` returns with the rules `rules`. */
  function NicknamesOf(rules: seq<NicknameRule>, switchName: Option<string>): seq<string> {
    if switchName.None? then [] else Collected(rules, ToLowerAscii(switchName.value))
  }

  /** The rule list splits: the nicknames of `a + b` are those of `a`
    * followed by those of `b`. */
  lemma {:induction false} CollectedConcat(a: seq<NicknameRule>, b: seq<NicknameRule>, lowerName: string)
    ensures Collected(a + b, lowerName) == Collected(a, lowerName) + Collected(b, lowerName)
    decreases |b|
  {
    if b != [] {
      var b' := b[..|b| - 1];
      assert (a + b)[..|a + b| - 1] == a + b';
      assert (a + b)[|a + b| - 1] == b[|b| - 1];
      CollectedConcat(a, b', lowerName);
      var last := b[|b| - 1];
      var extra := if Matches(last, lowerName) then last.nicknames else [];
      assert Collected(b, lowerName) == Collected(b', lowerName) + extra;
      assert Collected(a + b, lowerName) == Collected(a + b', lowerName) + extra;
    } else {
      assert a + b == a;
    }
  }

  /** A single rule gives all of its nicknames or none. */
  lemma CollectedSingle(rule: NicknameRule, lowerName: string)
    ensures Collected([rule], lowerName) == if Matches(rule, lowerName) then rule.nicknames else []
  {
    assert [rule][..0] == [];
  }

  /** Each rule contributes all of its nicknames or none, at its place in
    * the rule order; a rule listed twice contributes twice. */
  lemma NicknamesByRule(before: seq<NicknameRule>, rule: NicknameRule, after: seq<NicknameRule>, name: string)
    ensures NicknamesOf(before + [rule] + after, Some(name))
            == NicknamesOf(before, Some(name))
               + (if Matches(rule, ToLowerAscii(name)) then rule.nicknames else [])
               + NicknamesOf(after, Some(name))
  {
    var lower := ToLowerAscii(name);
    CollectedConcat(before + [rule], after, lower);
    CollectedConcat(before, [rule], lower);
    CollectedSingle(rule, lower);
  }

  /** Names that differ only in ASCII letter case get the same nicknames. */
  lemma NicknamesIgnoreCase(rules: seq<NicknameRule>, a: string, b: string)
    requires ToLowerAscii(a) == ToLowerAscii(b)
    ensures NicknamesOf(rules, Some(a)) == NicknamesOf(rules, Some(b))
  {
  }

  /** A name takes the lower-cased form of itself: writing it in capitals
    * changes nothing. */
  lemma NicknamesOfLowered(rules: seq<NicknameRule>, name: string)
    ensures NicknamesOf(rules, Some(ToLowerAscii(name))) == NicknamesOf(rules, Some(name))
  {
    ToLowerIdempotent(name);
  }

  /** Without rules, or without a name, there are no nicknames. */
  lemma NoNicknames(rules: seq<NicknameRule>, name: Option<string>)
    ensures NicknamesOf([], name) == []
    ensures NicknamesOf(rules, None) == []
  {
  }

  /** The service object: its rule table starts empty and is replaced by
    * the loaded table, or kept when loading fails. */
  class SwitchNicknameService {
    var rules: seq<NicknameRule>

    constructor ()
      ensures rules == []
    {
      rules := [];
    }

    /** `init()`: `loaded` is the parsed table, `None` when reading the
      * resource throws an IOException. */
    method Init(loaded: Option<seq<NicknameRule>>)
      modifies this
      ensures loaded.Some? ==> rules == loaded.value
      ensures loaded.None? ==> rules == old(rules)
    {
      if loaded.Some? {
        rules := loaded.value;
      }
    }

    /** `getNicknames(switchName)`. */
    method GetNicknames(switchName: Option<string>) returns (result: seq<string>)
      ensures result == NicknamesOf(rules, switchName)
    {
      if switchName.None? {
        return [];
      }
      result := [];
      var lowerName := ToLowerAscii(switchName.value);
      var i := 0;
      while i < |rules|
        invariant 0 <= i <= |rules|
        invariant result == Collected(rules[..i], lowerName)
      {
        var rule := rules[i];
        assert rules[..i + 1][..i] == rules[..i];
        if Contains(lowerName, ToLowerAscii(rule.keyword)) {
          result := result + rule.nicknames;
        }
        i := i + 1;
      }
      assert rules[..|rules|] == rules;
    }
  }
}
