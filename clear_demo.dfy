/**
 * The demo clean-up handler: it reads the key `company:<slug>` from the
 * key-value store and deletes it only when it holds a value. A missing key
 * and an empty value read the same, as JavaScript's `!` sees them.
 */
module ClearDemo {
  import opened Wrappers

  datatype ClearResponse =
    | SlugRequired
    | NoDemo(key: string)
    | Removed(removedKey: string, removedValue: string)
  {
    function Status(): int {
      if SlugRequired? then 400 else 200
    }

    /** The `success` flag of a 200 answer. */
    predicate Success() {
      Removed?
    }
  }

  const KeyPrefix: string := "company:"

  /** The store key of a company's demo. */
  function DemoKey(companySlug: string): (key: string)
    ensures |key| == |KeyPrefix| + |companySlug|
    ensures key[..|KeyPrefix|] == KeyPrefix && key[|KeyPrefix|..] == companySlug
  {
    KeyPrefix + companySlug
  }

  /** The answer to a clean-up request. */
  function ClearOutcome(entries: map<string, string>, companySlug: Option<string>): ClearResponse {
    if !Truthy(companySlug) then SlugRequired
    else
      var key := DemoKey(companySlug.value);
      if key !in entries || entries[key] == "" then NoDemo(key)
      else Removed(key, entries[key])
  }

  /** The store after a clean-up request: the key goes only when it held a value. */
  function AfterClear(entries: map<string, string>, companySlug: Option<string>): map<string, string> {
    if ClearOutcome(entries, companySlug).Removed? then entries - {DemoKey(companySlug.value)}
    else entries
  }

  class DemoStore {
    var entries: map<string, string>

    constructor(initial: map<string, string>)
      ensures entries == initial
    {
      entries := initial;
    }

    /** The clean-up handler: check, then delete. */
    method Clear(companySlug: Option<string>) returns (r: ClearResponse)
      modifies this
      ensures r == ClearOutcome(old(entries), companySlug)
      ensures entries == AfterClear(old(entries), companySlug)
    {
      if !Truthy(companySlug) {
        return SlugRequired;
      }
      var key := DemoKey(companySlug.value);
      var existingValue := if key in entries then entries[key] else "";
      if existingValue == "" {
        return NoDemo(key);
      }
      entries := entries - {key};
      r := Removed(key, existingValue);
    }
  }

  /** Different slugs never share a key. */
  lemma DemoKeyIsInjective(a: string, b: string)
    ensures DemoKey(a) == DemoKey(b) <==> a == b
  {
    if DemoKey(a) == DemoKey(b) {
      assert a == DemoKey(a)[|KeyPrefix|..];
    }
  }

  /** A missing or empty slug answers 400 and changes nothing. */
  lemma ClearNeedsSlug(entries: map<string, string>, companySlug: Option<string>)
    ensures ClearOutcome(entries, companySlug).Status() == 400 <==> !Truthy(companySlug)
    ensures !Truthy(companySlug) ==> AfterClear(entries, companySlug) == entries
  {
  }

  /** Without a value under the key the answer is `success: false` and the store is unchanged. */
  lemma ClearWithoutDemo(entries: map<string, string>, companySlug: string)
    requires companySlug != ""
    requires DemoKey(companySlug) !in entries || entries[DemoKey(companySlug)] == ""
    ensures ClearOutcome(entries, Some(companySlug)) == NoDemo("company:" + companySlug)
    ensures AfterClear(entries, Some(companySlug)) == entries
  {
  }

  /** With a value under the key, that key and no other is deleted, and the old value is reported. */
  lemma ClearRemovesDemo(entries: map<string, string>, companySlug: string)
    requires companySlug != ""
    requires DemoKey(companySlug) in entries && entries[DemoKey(companySlug)] != ""
    ensures ClearOutcome(entries, Some(companySlug))
         == Removed("company:" + companySlug, entries["company:" + companySlug])
    ensures AfterClear(entries, Some(companySlug)).Keys == entries.Keys - {"company:" + companySlug}
    ensures forall k :: k in AfterClear(entries, Some(companySlug)) ==>
      AfterClear(entries, Some(companySlug))[k] == entries[k]
  {
  }

  /** A second clean-up of the same slug finds nothing. */
  lemma ClearTwiceFindsNothing(entries: map<string, string>, companySlug: Option<string>)
    ensures var once := AfterClear(entries, companySlug);
      !ClearOutcome(once, companySlug).Success() && AfterClear(once, companySlug) == once
  {
  }
}
