/**
 * Executor profiles (crates/executors/src/profile.rs): user configurations are
 * saved as the difference from built-in defaults and merged back when loaded.
 * Hash maps are iterated in an arbitrary order.
 */
module Profiles {
  import opened Wrappers

  type Agent = string
  type Config = string

  datatype RecentModels = RecentModels(models: seq<string>, reasoningByModel: map<string, string>)

  datatype Profile = Profile(recent: Option<RecentModels>, configurations: map<string, Config>)

  type Configs = map<Agent, Profile>

  datatype ProfileError =
    | CannotDeleteExecutor(executor: Agent)
    | CannotDeleteBuiltInConfig(executor: Agent, variant: string)

  const NoModels: RecentModels := RecentModels([], map[])

  /** The part of a map an iteration has seen. */
  ghost predicate Seen<K, V>(m: map<K, V>, done: map<K, V>, rest: set<K>) {
    rest <= m.Keys && done.Keys == m.Keys - rest && forall k | k in done :: done[k] == m[k]
  }

  // ----- canonical names -----

  /** What `canonicalise` may make of a profile's configurations, for any order of its keys. */
  ghost predicate CanonicalForm(canon: string -> string, before: map<string, Config>, after: map<string, Config>) {
    && (forall k | k in before :: canon(k) in after)
    && (forall c | c in after :: exists k :: k in before && canon(k) == c && before[k] == after[c])
    // a canonical name that was there wins over the names that turn into it
    && (forall c | c in before && canon(c) == c :: c in after && after[c] == before[c])
  }

  /** One profile of `canonicalise`; the names are canonical afterwards if `canon` is idempotent. */
  method CanonicaliseProfile(canon: string -> string, configurations: map<string, Config>) returns (out: map<string, Config>)
    requires forall k | k in configurations :: canon(canon(k)) == canon(k)
    ensures CanonicalForm(canon, configurations, out)
  {
    var replacements: set<string> := set k | k in configurations && canon(k) != k;
    out := configurations;
    var rest := replacements;
    while rest != {}
      invariant rest <= replacements
      invariant forall k | k in configurations && (canon(k) == k || k in rest) :: k in out && out[k] == configurations[k]
      invariant forall k | k in configurations && k !in rest :: canon(k) in out
      invariant forall c | c in out && c !in rest :: exists k :: k in configurations && canon(k) == c && configurations[k] == out[c]
      decreases |rest|
    {
      var old_ :| old_ in rest;
      var new_ := canon(old_);
      assert new_ !in replacements;
      var config := out[old_];
      out := out - {old_};
      if new_ !in out {
        out := out[new_ := config];
      }
      rest := rest - {old_};
    }
  }

  class ExecutorConfigs {
    var executors: Configs

    constructor (executors: Configs)
      ensures this.executors == executors
    {
      this.executors := executors;
    }

    /** Every profile in place; nothing but the names of configurations changes. */
    method Canonicalise(canon: string -> string)
      requires forall e, k | e in executors && k in executors[e].configurations :: canon(canon(k)) == canon(k)
      modifies this
      ensures executors.Keys == old(executors.Keys)
      ensures forall e | e in executors :: CanonicalProfile(canon, old(executors[e]), executors[e])
    {
      var rest := executors.Keys;
      while rest != {}
        invariant executors.Keys == old(executors.Keys) && rest <= executors.Keys
        invariant forall e | e in executors :: if e in rest then executors[e] == old(executors[e])
                                               else CanonicalProfile(canon, old(executors[e]), executors[e])
        decreases |rest|
      {
        var e :| e in rest;
        var configurations := CanonicaliseProfile(canon, executors[e].configurations);
        executors := executors[e := executors[e].(configurations := configurations)];
        rest := rest - {e};
      }
    }
  }

  ghost predicate CanonicalProfile(canon: string -> string, before: Profile, after: Profile) {
    after.recent == before.recent && CanonicalForm(canon, before.configurations, after.configurations)
  }

  /** The names are canonical afterwards, and a profile whose names were canonical is unchanged. */
  lemma CanonicalNames(canon: string -> string, before: map<string, Config>, after: map<string, Config>)
    requires CanonicalForm(canon, before, after) && forall k | k in before :: canon(canon(k)) == canon(k)
    ensures forall c | c in after :: canon(c) == c
    ensures (forall k | k in before :: canon(k) == k) ==> after == before
  {
  }

  // ----- specification of merge and difference -----

  function MergeProfile(d: Profile, o: Profile): Profile {
    Profile(if o.recent.Some? then o.recent else d.recent, d.configurations + o.configurations)
  }

  function MergeWithDefaults(defaults: Configs, overrides: Configs): Configs {
    map e | e in defaults.Keys + overrides.Keys ::
      if e !in overrides then defaults[e]
      else if e !in defaults then overrides[e]
      else MergeProfile(defaults[e], overrides[e])
  }

  predicate Differs(d: Profile, c: Profile, name: string) {
    name in c.configurations && (name !in d.configurations || c.configurations[name] != d.configurations[name])
  }

  function OverrideOf(d: Profile, c: Profile): Profile {
    Profile(if c.recent == d.recent then None else if c.recent.None? then Some(NoModels) else c.recent,
            map n | n in c.configurations && Differs(d, c, n) :: c.configurations[n])
  }

  predicate Needed(d: Profile, c: Profile) {
    OverrideOf(d, c).configurations != map[] || OverrideOf(d, c).recent.Some?
  }

  function Overrides(defaults: Configs, current: Configs): Configs {
    map e | e in current && (e in defaults ==> Needed(defaults[e], current[e])) ::
      if e in defaults then OverrideOf(defaults[e], current[e]) else current[e]
  }

  /** No built-in executor and no built-in configuration is missing. */
  ghost predicate NothingDeleted(defaults: Configs, current: Configs) {
    forall e | e in defaults :: e in current && defaults[e].configurations.Keys <= current[e].configurations.Keys
  }

  // ----- the operations -----

  lemma SeenStep<K, V>(m: map<K, V>, done: map<K, V>, rest: set<K>, k: K)
    requires Seen(m, done, rest) && k in rest
    ensures k !in done && Seen(m, done[k := m[k]], rest - {k})
  {
  }

  lemma MergeStep(defaults: Configs, done: Configs, e: Agent, o: Profile)
    requires e !in done
    ensures var before := MergeWithDefaults(defaults, done);
            (e in before <==> e in defaults) && (e in defaults ==> before[e] == defaults[e])
    ensures MergeWithDefaults(defaults, done[e := o])
            == MergeWithDefaults(defaults, done)[e := if e in defaults then MergeProfile(defaults[e], o) else o]
  {
  }

  method Merge(defaults: Configs, overrides: Configs) returns (merged: Configs)
    ensures merged == MergeWithDefaults(defaults, overrides)
  {
    merged := defaults;
    ghost var done: Configs := map[];
    var rest := overrides.Keys;
    while rest != {}
      invariant Seen(overrides, done, rest)
      invariant merged == MergeWithDefaults(defaults, done)
      decreases |rest|
    {
      var e :| e in rest;
      var o := overrides[e];
      MergeStep(defaults, done, e, o);
      SeenStep(overrides, done, rest, e);
      if e in merged {
        var configurations := AddConfigurations(merged[e].configurations, o.configurations);
        var recent := if o.recent.Some? then o.recent else merged[e].recent;
        merged := merged[e := Profile(recent, configurations)];
      } else {
        merged := merged[e := o];
      }
      done, rest := done[e := o], rest - {e};
    }
    SeenAll(overrides, done);
  }

  lemma PlusStep<K, V>(a: map<K, V>, b: map<K, V>, k: K, v: V)
    ensures a + b[k := v] == (a + b)[k := v]
  {
  }

  lemma SeenAll<K, V>(m: map<K, V>, done: map<K, V>)
    requires Seen(m, done, {})
    ensures done == m
  {
  }

  method AddConfigurations(defaults: map<string, Config>, extra: map<string, Config>) returns (out: map<string, Config>)
    ensures out == defaults + extra
  {
    out := defaults;
    ghost var done: map<string, Config> := map[];
    var rest := extra.Keys;
    while rest != {}
      invariant Seen(extra, done, rest)
      invariant out == defaults + done
      decreases |rest|
    {
      var name :| name in rest;
      PlusStep(defaults, done, name, extra[name]);
      out := out[name := extra[name]];
      done, rest := done[name := extra[name]], rest - {name};
    }
    SeenAll(extra, done);
  }

  /** The scan for illegal deletions, before anything is computed. */
  method FindDeletion(defaults: Configs, current: Configs) returns (found: Option<ProfileError>)
    ensures found.None? <==> NothingDeleted(defaults, current)
    ensures found.Some? ==>
              match found.value
              case CannotDeleteExecutor(e) => e in defaults && e !in current
              case CannotDeleteBuiltInConfig(e, n) =>
                e in defaults && e in current && n in defaults[e].configurations && n !in current[e].configurations
  {
    var rest := defaults.Keys;
    while rest != {}
      invariant rest <= defaults.Keys
      invariant forall e | e in defaults && e !in rest ::
                  e in current && defaults[e].configurations.Keys <= current[e].configurations.Keys
      decreases |rest|
    {
      var e :| e in rest;
      if e !in current {
        return Some(CannotDeleteExecutor(e));
      }
      var names := defaults[e].configurations.Keys;
      while names != {}
        invariant names <= defaults[e].configurations.Keys
        invariant forall n | n in defaults[e].configurations && n !in names :: n in current[e].configurations
        decreases |names|
      {
        var n :| n in names;
        if n !in current[e].configurations {
          return Some(CannotDeleteBuiltInConfig(e, n));
        }
        names := names - {n};
      }
      rest := rest - {e};
    }
    return None;
  }

  method DiffConfigurations(d: Profile, c: Profile) returns (out: map<string, Config>)
    ensures out == OverrideOf(d, c).configurations
  {
    out := map[];
    var rest := c.configurations.Keys;
    while rest != {}
      invariant rest <= c.configurations.Keys
      invariant out == map n | n in c.configurations && n !in rest && Differs(d, c, n) :: c.configurations[n]
      decreases |rest|
    {
      var n :| n in rest;
      if n in d.configurations {
        if c.configurations[n] != d.configurations[n] {
          out := out[n := c.configurations[n]];
        }
      } else {
        out := out[n := c.configurations[n]];
      }
      rest := rest - {n};
    }
  }

  lemma OverridesStep(defaults: Configs, done: Configs, e: Agent, c: Profile)
    requires e !in done
    ensures Overrides(defaults, done[e := c]) ==
              if e !in defaults then Overrides(defaults, done)[e := c]
              else if Needed(defaults[e], c) then Overrides(defaults, done)[e := OverrideOf(defaults[e], c)]
              else Overrides(defaults, done)
  {
  }

  method ComputeOverrides(defaults: Configs, current: Configs) returns (r: Result<Configs, ProfileError>)
    ensures r.Ok? <==> NothingDeleted(defaults, current)
    ensures r.Ok? ==> r.value == Overrides(defaults, current)
    ensures r.Err? ==>
              match r.error
              case CannotDeleteExecutor(e) => e in defaults && e !in current
              case CannotDeleteBuiltInConfig(e, n) =>
                e in defaults && e in current && n in defaults[e].configurations && n !in current[e].configurations
  {
    var deletion := FindDeletion(defaults, current);
    if deletion.Some? {
      return Err(deletion.value);
    }
    var overrides: Configs := map[];
    ghost var done: Configs := map[];
    var rest := current.Keys;
    while rest != {}
      invariant Seen(current, done, rest)
      invariant overrides == Overrides(defaults, done)
      decreases |rest|
    {
      var e :| e in rest;
      var c := current[e];
      OverridesStep(defaults, done, e, c);
      if e in defaults {
        var d := defaults[e];
        var configurations := DiffConfigurations(d, c);
        var o := Profile(None, configurations);
        if c.recent != d.recent {
          o := o.(recent := if c.recent.Some? then c.recent else Some(NoModels));
        }
        if o.configurations != map[] || o.recent.Some? {
          overrides := overrides[e := o];
        }
      } else {
        overrides := overrides[e := c];
      }
      done, rest := done[e := c], rest - {e};
    }
    SeenAll(current, done);
    return Ok(overrides);
  }

  // ----- main results -----

  /** The recent models of a default executor have been cleared. */
  predicate Cleared(defaults: Configs, current: Configs, e: Agent) {
    e in defaults && e in current && defaults[e].recent.Some? && current[e].recent.None?
  }

  /** The current configuration with cleared recent models as an empty record. */
  function Reloaded(defaults: Configs, current: Configs): Configs {
    map e | e in current ::
      if Cleared(defaults, current, e) then current[e].(recent := Some(NoModels)) else current[e]
  }

  lemma MergeOverride(d: Profile, c: Profile)
    requires d.configurations.Keys <= c.configurations.Keys
    ensures MergeProfile(d, OverrideOf(d, c)) == c.(recent := if d.recent.Some? && c.recent.None? then Some(NoModels) else c.recent)
    ensures !Needed(d, c) ==> d == c
  {
    var o := OverrideOf(d, c);
    forall n | n in d.configurations ensures n in o.configurations || d.configurations[n] == c.configurations[n] {
      if Differs(d, c, n) { assert n in o.configurations; }
    }
    assert d.configurations + o.configurations == c.configurations;
  }

  /** Saving and merging back gives the configuration again, but for cleared recent models, which come back empty. */
  lemma RoundTrip(defaults: Configs, current: Configs)
    requires NothingDeleted(defaults, current)
    ensures MergeWithDefaults(defaults, Overrides(defaults, current)) == Reloaded(defaults, current)
    ensures MergeWithDefaults(defaults, Overrides(defaults, current)) == current
            <==> forall e :: !Cleared(defaults, current, e)
  {
    var merged := MergeWithDefaults(defaults, Overrides(defaults, current));
    forall e | e in current ensures merged[e] == Reloaded(defaults, current)[e] {
      if e in defaults { MergeOverride(defaults[e], current[e]); }
    }
    assert merged == Reloaded(defaults, current);
    if e :| Cleared(defaults, current, e) { assert merged[e] != current[e]; }
  }

  /** The one entry that repeats its default: models cleared where the default is the empty record. */
  predicate ClearedEmpty(defaults: Configs, current: Configs, e: Agent) {
    Cleared(defaults, current, e) && defaults[e].recent == Some(NoModels)
  }

  /** Nothing that equals its default is saved, apart from recent models cleared where the default is the empty record. */
  lemma OverridesAreMinimal(defaults: Configs, current: Configs, e: Agent)
    requires NothingDeleted(defaults, current) && e in defaults && e in Overrides(defaults, current)
    ensures var d, o := defaults[e], Overrides(defaults, current)[e];
            && (forall n | n in o.configurations && n in d.configurations :: o.configurations[n] != d.configurations[n])
            && (o.recent.Some? && o.recent == d.recent <==> ClearedEmpty(defaults, current, e))
            && (o.configurations != map[] || o.recent.Some?)
  {
  }

  /** The overrides are the least: whatever merges to the current configuration holds each of their parts. */
  lemma OverridesAreLeast(defaults: Configs, current: Configs, other: Configs, e: Agent)
    requires MergeWithDefaults(defaults, other) == current && e in Overrides(defaults, current)
    ensures e in other
    ensures var o := Overrides(defaults, current)[e];
            && (forall n | n in o.configurations :: n in other[e].configurations && other[e].configurations[n] == o.configurations[n])
            && (o.recent.Some? ==> other[e].recent == o.recent)
  {
    assert e in MergeWithDefaults(defaults, other);
    assert current[e] == MergeWithDefaults(defaults, other)[e];
  }

  lemma OverrideAgain(d: Profile, c: Profile)
    requires d.configurations.Keys <= c.configurations.Keys
    ensures var again := c.(recent := if d.recent.Some? && c.recent.None? then Some(NoModels) else c.recent);
            && OverrideOf(d, again).configurations == OverrideOf(d, c).configurations
            && (OverrideOf(d, again).recent == OverrideOf(d, c).recent <==> !(d.recent == Some(NoModels) && c.recent.None?))
  {
    var again := c.(recent := if d.recent.Some? && c.recent.None? then Some(NoModels) else c.recent);
    assert forall n :: Differs(d, again, n) <==> Differs(d, c, n);
  }

  /** Saving what was loaded saves the same overrides, except in that one case. */
  lemma SavingAgain(defaults: Configs, current: Configs)
    requires NothingDeleted(defaults, current)
    ensures var merged := MergeWithDefaults(defaults, Overrides(defaults, current));
            && NothingDeleted(defaults, merged)
            && (Overrides(defaults, merged) == Overrides(defaults, current) <==> forall e :: !ClearedEmpty(defaults, current, e))
  {
    RoundTrip(defaults, current);
    var merged := Reloaded(defaults, current);
    var first, second := Overrides(defaults, current), Overrides(defaults, merged);
    forall e | e in current ensures At(second, e) == At(first, e) <==> !ClearedEmpty(defaults, current, e) {
      if e in defaults { OverrideAgain(defaults[e], current[e]); }
    }
    if forall e :: !ClearedEmpty(defaults, current, e) {
      forall e ensures At(second, e) == At(first, e) {
        if e in current { assert At(second, e) == At(first, e); }
      }
      assert second == first by {
        forall e | e in first ensures e in second && second[e] == first[e] { assert At(second, e) == At(first, e); }
        forall e | e in second ensures e in first { assert At(second, e) == At(first, e); }
      }
    } else {
      var e :| ClearedEmpty(defaults, current, e);
      assert At(second, e) != At(first, e);
    }
  }

  function At(m: Configs, e: Agent): Option<Profile> {
    if e in m then Some(m[e]) else None
  }

  /** What is written has canonical names already, so canonicalising it when it is read changes nothing. */
  lemma ReadIsWritten(canon: string -> string, defaults: Configs, current: Configs, read: Configs)
    requires forall e, n | e in current && n in current[e].configurations :: canon(n) == n
    requires read.Keys == Overrides(defaults, current).Keys
    requires forall e | e in read :: CanonicalProfile(canon, Overrides(defaults, current)[e], read[e])
    ensures read == Overrides(defaults, current)
  {
    var written := Overrides(defaults, current);
    forall e | e in read ensures read[e] == written[e] {
      CanonicalNames(canon, written[e].configurations, read[e].configurations);
    }
  }

  /**
   * `save_overrides` and then `load`: the current configuration is canonicalised,
   * its overrides are written, read, canonicalised and merged. What is loaded is
   * what was saved, but for cleared recent models.
   */
  lemma LoadAfterSave(canon: string -> string, defaults: Configs, current: Configs, saved: Configs, read: Configs)
    requires forall k :: canon(canon(k)) == canon(k)
    requires saved.Keys == current.Keys && forall e | e in current :: CanonicalProfile(canon, current[e], saved[e])
    requires NothingDeleted(defaults, saved)
    requires read.Keys == Overrides(defaults, saved).Keys
    requires forall e | e in read :: CanonicalProfile(canon, Overrides(defaults, saved)[e], read[e])
    ensures MergeWithDefaults(defaults, read) == Reloaded(defaults, saved)
    ensures MergeWithDefaults(defaults, read) == saved <==> forall e :: !Cleared(defaults, current, e)
  {
    forall e, n | e in saved && n in saved[e].configurations ensures canon(n) == n {
      CanonicalNames(canon, current[e].configurations, saved[e].configurations);
    }
    ReadIsWritten(canon, defaults, saved, read);
    RoundTrip(defaults, saved);
    assert forall e :: Cleared(defaults, saved, e) <==> Cleared(defaults, current, e);
  }
}
