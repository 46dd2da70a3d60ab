/**
 * The wildcard matcher the arbiter uses for environment filters
 * (`glob.Glob(pattern, subject)` from github.com/ryanuber/go-glob):
 * `*` matches any run of characters, possibly empty, and every other
 * character matches only itself.
 */
module Glob {

  const Wildcard: char := '*'

  /** Does `subject` match `pattern`? */
  predicate Matches(pattern: string, subject: string)
    decreases |pattern| + |subject|
  {
    if pattern == [] then subject == []
    else if pattern[0] == Wildcard then
      Matches(pattern[1..], subject) || (subject != [] && Matches(pattern, subject[1..]))
    else
      subject != [] && subject[0] == pattern[0] && Matches(pattern[1..], subject[1..])
  }

  /** Every string matches itself read as a pattern, wildcards included. */
  lemma {:induction false} MatchesItself(p: string)
    ensures Matches(p, p)
  {
    if p != [] {
      MatchesItself(p[1..]);
      if p[0] == Wildcard {
        assert Matches(p, p[1..]);
      }
    }
  }

  /** A pattern without wildcards matches exactly the string it spells. */
  lemma {:induction false} LiteralMatchesOnlyItself(p: string, s: string)
    requires Wildcard !in p
    ensures Matches(p, s) <==> s == p
  {
    if p != [] && s != [] {
      assert p == [p[0]] + p[1..];
      assert s == [s[0]] + s[1..];
      LiteralMatchesOnlyItself(p[1..], s[1..]);
    }
  }

  /** The lone wildcard matches every string. */
  lemma {:induction false} WildcardMatchesAll(s: string)
    ensures Matches([Wildcard], s)
  {
    if s != [] {
      WildcardMatchesAll(s[1..]);
    }
  }

  /** A literal prefix followed by one wildcard matches exactly the strings with that prefix. */
  lemma {:induction false} PrefixPatternMatches(prefix: string, s: string)
    requires Wildcard !in prefix
    ensures Matches(prefix + [Wildcard], s) <==> prefix <= s
  {
    if prefix == [] {
      assert prefix + [Wildcard] == [Wildcard];
      WildcardMatchesAll(s);
    } else {
      var p := prefix + [Wildcard];
      assert p[0] == prefix[0];
      assert p[1..] == prefix[1..] + [Wildcard];
      assert prefix == [prefix[0]] + prefix[1..];
      if s != [] {
        assert s == [s[0]] + s[1..];
        PrefixPatternMatches(prefix[1..], s[1..]);
      }
    }
  }

  /** The filter `prod-*` selects `prod-eu` and `prod-us` but not `staging`. */
  lemma ProductionFilterExample()
    ensures Matches("prod-*", "prod-eu")
    ensures Matches("prod-*", "prod-us")
    ensures !Matches("prod-*", "staging")
  {
    assert "prod-*" == "prod-" + [Wildcard];
    PrefixPatternMatches("prod-", "prod-eu");
    PrefixPatternMatches("prod-", "prod-us");
    PrefixPatternMatches("prod-", "staging");
  }
}
