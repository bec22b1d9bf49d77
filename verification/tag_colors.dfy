/**
 * The tag colour resolver of the card component: a tag is lower-cased and
 * looked up in a fixed table of background-colour class tokens, falling back
 * to a default token.
 */
module TagColors {
  import opened Wrappers
  import opened AsciiCase

  /** The token used for every tag the table does not know. */
  const DefaultColor: string := "bg-black/5 dark:bg-some-blue"

  /** The fixed tag-to-colour table, keyed by lower-cased tag. */
  const ColorTable: map<string, string> := map[
    "ios" := "bg-salmon",
    "tutorial" := "bg-periwinkle",
    "uikit" := "bg-torch-lake",
    "functional programming" := "bg-lavender"
  ]

  /** A property read on the table: `None` plays the part of `undefined`. */
  function Lookup(key: string): (r: Option<string>)
    ensures r.None? <==> key !in ColorTable.Keys
    ensures r.Some? ==> r.value == ColorTable[key]
  {
    if key in ColorTable then Some(ColorTable[key]) else None
  }

  /**
   * JavaScript's `a || b` where `a` is a string or `undefined`: `a` when it is
   * truthy, that is defined and non-empty, and `b` otherwise.
   */
  function OrElse(a: Option<string>, b: string): (r: string)
    ensures a.Some? && a.value != "" ==> r == a.value
    ensures a.None? || a.value == "" ==> r == b
    ensures b != "" ==> r != ""
  {
    if a.Some? && a.value != "" then a.value else b
  }

  /**
   * What the lookup relies on: every key is already lower-case, every value is
   * a non-empty token different from the default, and no two keys share a
   * token.
   */
  predicate WellFormedTable(m: map<string, string>, default: string) {
    && default != ""
    && (forall k :: k in m ==> IsLower(k) && m[k] != "" && m[k] != default)
    && (forall k, k' :: k in m && k' in m && m[k] == m[k'] ==> k == k')
  }

  lemma ColorTableWellFormed()
    ensures WellFormedTable(ColorTable, DefaultColor)
  {
    assert ColorTable.Keys == {"ios", "tutorial", "uikit", "functional programming"};
    assert IsLower("ios") && IsLower("tutorial") && IsLower("uikit");
    assert IsLower("functional programming");
    forall k, k' | k in ColorTable && k' in ColorTable && ColorTable[k] == ColorTable[k']
      ensures k == k'
    {
      assert ColorTable[k][3] == ColorTable[k'][3];
    }
  }

  /** The background token of a tag badge. */
  function TagColor(tag: string): (r: string)
    ensures r != ""
    ensures r == DefaultColor || r in ColorTable.Values
  {
    OrElse(Lookup(Lower(tag)), DefaultColor)
  }

  /**
   * A tag whose lower-cased form is a key gets that key's token: the `||`
   * fallback never fires on a hit, because no table value is empty.
   */
  lemma TagColorOnHit(tag: string)
    requires Lower(tag) in ColorTable
    ensures TagColor(tag) == ColorTable[Lower(tag)]
    ensures TagColor(tag) != DefaultColor
  {
    ColorTableWellFormed();
  }

  /** The default token comes out exactly when the lower-cased tag is not a key. */
  lemma TagColorDefaultIffMiss(tag: string)
    ensures TagColor(tag) == DefaultColor <==> Lower(tag) !in ColorTable
  {
    ColorTableWellFormed();
  }

  /** Colour lookup does not depend on case: only the lower-cased key is used. */
  lemma TagColorCaseInsensitive(tag: string)
    ensures TagColor(tag) == TagColor(Lower(tag))
  {
    LowerIdempotent(tag);
  }

  /** Two tags that are equal ignoring case get the same colour. */
  lemma SameColorIgnoringCase(a: string, b: string)
    requires EqualIgnoringCase(a, b)
    ensures TagColor(a) == TagColor(b)
  {
    EqualIgnoringCaseIffSameLower(a, b);
  }

  /**
   * Against the character-by-character definition of case-insensitive
   * equality: a tag gets key `k`'s token exactly when it equals `k` ignoring
   * case. There is no trimming and no partial match.
   */
  lemma TagColorMatchesKey(tag: string, k: string)
    requires k in ColorTable
    ensures EqualIgnoringCase(tag, k) <==> TagColor(tag) == ColorTable[k]
  {
    ColorTableWellFormed();
    LowerFixesExactlyLowerStrings(k);
    EqualIgnoringCaseIffSameLower(tag, k);
  }

  /** The default token comes out exactly when no key equals the tag ignoring case. */
  lemma TagColorDefaultIffNoMatch(tag: string)
    ensures TagColor(tag) == DefaultColor
        <==> forall k :: k in ColorTable ==> !EqualIgnoringCase(tag, k)
  {
    ColorTableWellFormed();
    TagColorDefaultIffMiss(tag);
    forall k | k in ColorTable
      ensures EqualIgnoringCase(tag, k) <==> Lower(tag) == k
    {
      LowerFixesExactlyLowerStrings(k);
      EqualIgnoringCaseIffSameLower(tag, k);
    }
  }

  /** Each table entry resolves as written, whatever the case of the tag. */
  lemma IosResolves()
    ensures TagColor("ios") == "bg-salmon"
    ensures TagColor("iOS") == "bg-salmon"
    ensures TagColor("IOS") == "bg-salmon"
  {
    TagColorMatchesKey("ios", "ios");
    TagColorMatchesKey("iOS", "ios");
    TagColorMatchesKey("IOS", "ios");
  }

  lemma TutorialResolves()
    ensures TagColor("tutorial") == "bg-periwinkle"
    ensures TagColor("Tutorial") == "bg-periwinkle"
  {
    TagColorMatchesKey("tutorial", "tutorial");
    TagColorMatchesKey("Tutorial", "tutorial");
  }

  lemma UIKitResolves()
    ensures TagColor("uikit") == "bg-torch-lake"
    ensures TagColor("UIKit") == "bg-torch-lake"
  {
    TagColorMatchesKey("uikit", "uikit");
    TagColorMatchesKey("UIKit", "uikit");
  }

  lemma FunctionalProgrammingResolves()
    ensures TagColor("functional programming") == "bg-lavender"
    ensures TagColor("Functional Programming") == "bg-lavender"
  {
    assert TagColor("functional programming") == "bg-lavender" by {
      TagColorMatchesKey("functional programming", "functional programming");
    }
    assert TagColor("Functional Programming") == "bg-lavender" by {
      assert EqualIgnoringCase("Functional Programming", "functional programming");
      TagColorMatchesKey("Functional Programming", "functional programming");
    }
  }

  /** Near misses get the default: no trimming, no prefixes, no empty tag. */
  lemma NearMissesGetDefault()
    ensures TagColor(" ios") == DefaultColor
    ensures TagColor("io") == DefaultColor
    ensures TagColor("ios ") == DefaultColor
    ensures TagColor("") == DefaultColor
  {
    assert TagColor(" ios") == DefaultColor by {
      TagColorDefaultIffMiss(" ios");
      assert Lower(" ios")[0] == ' ';
    }
    assert TagColor("io") == DefaultColor by {
      TagColorDefaultIffMiss("io");
    }
    assert TagColor("ios ") == DefaultColor by {
      TagColorDefaultIffMiss("ios ");
      assert Lower("ios ")[3] == ' ';
    }
    assert TagColor("") == DefaultColor by {
      TagColorDefaultIffMiss("");
    }
  }
}
