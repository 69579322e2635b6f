/**
 The auto-upgrade daemon's sync (pkg/autoupgrade/daemon.go): which apps are tracked, which are due, how they
 are grouped, and when the daemon wakes up next.  The clock, duration parsing, the API and the outcome of
 each image check are parameters; Go's map iteration order is left open.
 */
module Daemon {
  import opened GoStrings

  /** Nanoseconds since the zero time. */
  type Time = int
  const ZERO_TIME: Time := 0
  const DEFAULT_INTERVAL: int := 60_000_000_000

  datatype Key = Key(namespace: string, name: string)
  datatype ImageKey = ImageKey(image: string, namespace: string)

  datatype App = App(key: Key, image: string, statusImage: string, autoUpgrade: bool, notifyUpgrade: bool, interval: string, created: Time)

  // ---------- Pure parts ----------

  predicate IsPattern(tag: string) { '#' in tag || '*' in tag }

  /** The part after the last colon, unless it contains a slash: then it is a port and path. */
  function TagOf(image: string): string {
    var parts := Split(image, ':');
    var last := parts[|parts| - 1];
    if |parts| > 1 && '/' !in last then last else ""
  }

  predicate Enabled(a: App) { a.autoUpgrade || a.notifyUpgrade || IsPattern(TagOf(a.image)) }

  /** `removeTagPattern`: a pattern is cut off together with its colon. */
  function WithoutPattern(image: string): string {
    var tag := TagOf(image);
    if IsPattern(tag) then TrimSuffix(image, ":" + tag) else image
  }

  function ImageKeyOf(a: App): ImageKey {
    ImageKey(if a.statusImage == "" then WithoutPattern(a.image) else a.statusImage, a.key.namespace)
  }

  /** `calcNextCheck`; None is an interval that does not parse. */
  function NextCheck(parse: string -> Option<int>, interval: int, last: Time, a: App): Option<Time> {
    if a.created > last then Some(ZERO_TIME)
    else if a.interval == "" then Some(last + interval)
    else if parse(a.interval).None? then None
    else Some(last + parse(a.interval).value)
  }

  type Apps = map<Key, App>
  type Checks = map<Key, Time>
  type Groups = map<ImageKey, seq<Key>>

  /** The listed apps by key; of several with one key the last counts. */
  lemma {:induction false} AppsOfMeans(list: seq<App>, i: nat)
    requires i < |list| && forall j :: i < j < |list| ==> list[j].key != list[i].key
    ensures list[i].key in AppsOf(list) && AppsOf(list)[list[i].key] == list[i]
    ensures forall k :: k in AppsOf(list) ==> AppsOf(list)[k].key == k && AppsOf(list)[k] in list
  {
    AppsOfListed(list);
    if i < |list| - 1 {
      var front := list[..|list| - 1];
      AppsOfMeans(front, i);
    }
  }

  lemma {:induction false} AppsOfListed(list: seq<App>)
    ensures forall k :: k in AppsOf(list) ==> AppsOf(list)[k].key == k && AppsOf(list)[k] in list
  {
    if list != [] { AppsOfListed(list[..|list| - 1]); }
  }

  function AppsOf(list: seq<App>): Apps {
    if list == [] then map[] else AppsOf(list[..|list| - 1])[list[|list| - 1].key := list[|list| - 1]]
  }

  /** What must be tracked: the listed apps with auto-upgrade on, new ones as never checked. */
  function Tracked(prev: Checks, apps: Apps): Checks {
    map k | k in apps && Enabled(apps[k]) :: if k in prev then prev[k] else ZERO_TIME
  }

  predicate Due(parse: string -> Option<int>, interval: int, now: Time, last: Time, a: App) {
    var n := NextCheck(parse, interval, last, a);
    n.Some? && n.value < now
  }

  /** The groups hold each due app exactly once, under its own key, and nothing else. */
  ghost predicate GroupsExactly(groups: Groups, apps: Apps, due: set<Key>) {
    && (forall ik, k :: ik in groups && k in groups[ik] ==> k in due && k in apps && ImageKeyOf(apps[k]) == ik)
    && (forall k :: k in due ==> k in apps && ImageKeyOf(apps[k]) in groups && k in groups[ImageKeyOf(apps[k])])
    && (forall ik, i, j :: ik in groups && 0 <= i < j < |groups[ik]| ==> groups[ik][i] != groups[ik][j])
  }

  /** The check times after a sync. */
  function After(parse: string -> Option<int>, interval: int, now: Time, checked: (ImageKey, Key) -> bool, prev: Checks, apps: Apps): Checks {
    map k | k in Tracked(prev, apps) ::
      if Due(parse, interval, now, Tracked(prev, apps)[k], apps[k]) && checked(ImageKeyOf(apps[k]), k) then now else Tracked(prev, apps)[k]
  }

  /** The instant is the earliest of the default one and the next checks of all tracked apps whose interval parses. */
  ghost predicate IsWakeUp(parse: string -> Option<int>, interval: int, now: Time, checks: Checks, apps: Apps, wake: Time)
    requires forall k :: k in checks ==> k in apps
  {
    && wake <= now + interval
    && (forall k :: k in checks && NextCheck(parse, interval, checks[k], apps[k]).Some? ==> wake <= NextCheck(parse, interval, checks[k], apps[k]).value)
    && (wake == now + interval || exists k :: k in checks && NextCheck(parse, interval, checks[k], apps[k]) == Some(wake))
  }

  // ---------- The same from the fields of the apps ----------

  ghost predicate InSomeGroup(groups: Groups, k: Key) { exists ik :: ik in groups && k in groups[ik] }

  /**
   An app that was not created after its last check is in a group exactly when its last check plus its own
   interval, or the default one if it has none, is past; an app created since is in a group at once.
   */
  ghost predicate RefreshesDue(parse: string -> Option<int>, interval: int, now: Time, tracked: Checks, apps: Apps, groups: Groups) {
    forall k :: k in tracked && k in apps ==>
      var a, last := apps[k], tracked[k];
      && (a.created > last ==> (InSomeGroup(groups, k) <==> 0 < now))
      && (a.created <= last && a.interval == "" ==> (InSomeGroup(groups, k) <==> last + interval < now))
      && (a.created <= last && a.interval != "" ==>
            (InSomeGroup(groups, k) <==> parse(a.interval).Some? && last + parse(a.interval).value < now))
  }

  /** What must have been checked again by the instant `t`: nothing is due before it. */
  ghost predicate NothingDueBefore(parse: string -> Option<int>, interval: int, checks: Checks, apps: Apps, t: Time) {
    forall k :: k in checks && k in apps ==>
      var a, last := apps[k], checks[k];
      && (a.created > last ==> t <= 0)
      && (a.created <= last && a.interval == "" ==> t <= last + interval)
      && (a.created <= last && a.interval != "" && parse(a.interval).Some? ==> t <= last + parse(a.interval).value)
  }

  /** Some app is due right after the instant. */
  ghost predicate SomethingDueAt(parse: string -> Option<int>, interval: int, checks: Checks, apps: Apps, t: Time) {
    exists k :: k in checks && k in apps &&
      var a, last := apps[k], checks[k];
      || (a.created > last && t == 0)
      || (a.created <= last && a.interval == "" && t == last + interval)
      || (a.created <= last && a.interval != "" && parse(a.interval).Some? && t == last + parse(a.interval).value)
  }

  ghost predicate WakesInTime(parse: string -> Option<int>, interval: int, now: Time, checks: Checks, apps: Apps, wake: Time) {
    && wake <= now + interval && NothingDueBefore(parse, interval, checks, apps, wake)
    && (wake == now + interval || SomethingDueAt(parse, interval, checks, apps, wake))
  }

  /** A tracked app has the time it had, none if it is new, unless it was in a group and its check was recorded. */
  ghost predicate TimesFollow(now: Time, checked: (ImageKey, Key) -> bool, prev: Checks, apps: Apps, groups: Groups, checks: Checks) {
    && (forall k :: k in checks <==> k in apps && Enabled(apps[k]))
    && forall k :: k in checks ==>
         checks[k] == if InSomeGroup(groups, k) && checked(ImageKeyOf(apps[k]), k) then now else if k in prev then prev[k] else 0
  }

  lemma GroupsMean(parse: string -> Option<int>, interval: int, now: Time, prev: Checks, apps: Apps, groups: Groups)
    requires var tracked := Tracked(prev, apps);
             GroupsExactly(groups, apps, set k | k in tracked && Due(parse, interval, now, tracked[k], apps[k]))
    ensures forall k :: k in Tracked(prev, apps) ==>
              (InSomeGroup(groups, k) <==> Due(parse, interval, now, Tracked(prev, apps)[k], apps[k]))
    ensures RefreshesDue(parse, interval, now, Tracked(prev, apps), apps, groups)
  {
    var tracked := Tracked(prev, apps);
    forall k | k in tracked ensures InSomeGroup(groups, k) <==> Due(parse, interval, now, tracked[k], apps[k]) {
      if Due(parse, interval, now, tracked[k], apps[k]) {
        assert ImageKeyOf(apps[k]) in groups;
      }
    }
  }

  lemma TimesMean(parse: string -> Option<int>, interval: int, now: Time, checked: (ImageKey, Key) -> bool, prev: Checks, apps: Apps, groups: Groups)
    requires forall k :: k in Tracked(prev, apps) ==>
               (InSomeGroup(groups, k) <==> Due(parse, interval, now, Tracked(prev, apps)[k], apps[k]))
    ensures TimesFollow(now, checked, prev, apps, groups, After(parse, interval, now, checked, prev, apps))
  {
  }

  lemma WakeUpMeans(parse: string -> Option<int>, interval: int, now: Time, checks: Checks, apps: Apps, wake: Time)
    requires (forall k :: k in checks ==> k in apps) && IsWakeUp(parse, interval, now, checks, apps, wake)
    ensures WakesInTime(parse, interval, now, checks, apps, wake)
  {
    forall k | k in checks && k in apps
      ensures var a, last := apps[k], checks[k];
              && (a.created > last ==> wake <= 0)
              && (a.created <= last && a.interval == "" ==> wake <= last + interval)
              && (a.created <= last && a.interval != "" && parse(a.interval).Some? ==> wake <= last + parse(a.interval).value)
    {
      assert NextCheck(parse, interval, checks[k], apps[k]).Some? ==> wake <= NextCheck(parse, interval, checks[k], apps[k]).value;
    }
  }

  // ---------- Images and patterns ----------

  /** The tag of an image is what follows its last colon, if that holds no slash. */
  lemma TagMeans(repo: string, tag: string)
    requires ':' !in tag
    ensures TagOf(repo + ":" + tag) == if '/' in tag then "" else tag
    ensures TagOf(tag) == ""
  {
    SplitLast(repo, ':', tag);
  }

  /** An app takes part when its mode says so, or when its tag holds a `#` or a `*`; the pattern is not part of the image looked up. */
  lemma PatternMeans(a: App, repo: string, tag: string)
    requires ':' !in tag && '/' !in tag && a.image == repo + ":" + tag
    ensures Enabled(a) <==> a.autoUpgrade || a.notifyUpgrade || '#' in tag || '*' in tag
    ensures ImageKeyOf(a) ==
            ImageKey(if a.statusImage != "" then a.statusImage else if '#' in tag || '*' in tag then repo else a.image, a.key.namespace)
  {
    TagMeans(repo, tag);
    WithoutPatternMeans(repo, tag);
  }

  /** Without a colon there is no pattern, so only the mode decides. */
  lemma NoTagMeans(a: App)
    requires ':' !in a.image
    ensures Enabled(a) <==> a.autoUpgrade || a.notifyUpgrade
    ensures ImageKeyOf(a) == ImageKey(if a.statusImage != "" then a.statusImage else a.image, a.key.namespace)
  {
    TagMeans("", a.image);
  }

  lemma WithoutPatternMeans(repo: string, tag: string)
    requires TagOf(repo + ":" + tag) == tag
    ensures WithoutPattern(repo + ":" + tag) == if '#' in tag || '*' in tag then repo else repo + ":" + tag
  {
    var image, suffix := repo + ":" + tag, ":" + tag;
    assert image == repo + suffix;
    TrimAppended(repo, suffix);
  }

  datatype SyncResult = Failed(wait: int) | Done(wake: Time)

  class Syncer {
    const parse: string -> Option<int>
    var prevCheck: Checks

    constructor (parse: string -> Option<int>)
      ensures this.parse == parse && prevCheck == map[]
    {
      this.parse, prevCheck := parse, map[];
    }

    /**
     One sync.  `config` is the configured interval text and `listed` the app instances, None where the API
     fails; `checked` says whether the image check of an app ends with its time being recorded.
     */
    method Sync(now: Time, config: Option<string>, listed: Option<seq<App>>, checked: (ImageKey, Key) -> bool)
      returns (r: SyncResult, ghost groups: Groups)
      modifies this
      ensures config.None? || listed.None? ==> r.Failed? && prevCheck == old(prevCheck)
      ensures config.None? ==> r == Failed(60_000_000_000)
      ensures config.Some? && listed.None? ==> r == Failed(if parse(config.value).None? then DEFAULT_INTERVAL else parse(config.value).value)
      ensures config.Some? && listed.Some? ==>
                var interval := if parse(config.value).None? then DEFAULT_INTERVAL else parse(config.value).value;
                var apps := AppsOf(listed.value);
                var tracked := Tracked(old(prevCheck), apps);
                && prevCheck == After(parse, interval, now, checked, old(prevCheck), apps)
                && GroupsExactly(groups, apps, set k | k in tracked && Due(parse, interval, now, tracked[k], apps[k]))
                && r.Done? && (forall k :: k in prevCheck ==> k in apps) && IsWakeUp(parse, interval, now, prevCheck, apps, r.wake)
      ensures config.Some? && listed.Some? ==>
                var interval := if parse(config.value).None? then DEFAULT_INTERVAL else parse(config.value).value;
                var apps := AppsOf(listed.value);
                && RefreshesDue(parse, interval, now, Tracked(old(prevCheck), apps), apps, groups)
                && TimesFollow(now, checked, old(prevCheck), apps, groups, prevCheck)
                && r.Done? && WakesInTime(parse, interval, now, prevCheck, apps, r.wake)
    {
      groups := map[];
      if config.None? {
        return Failed(DEFAULT_INTERVAL), map[];
      }
      var interval := DEFAULT_INTERVAL;
      if parse(config.value).Some? {
        interval := parse(config.value).value;
      }
      if listed.None? {
        return Failed(interval), map[];
      }
      var apps := AddNew(listed.value);
      var refresh := DetermineAppsToRefresh(apps, interval, now, old(prevCheck));
      groups := refresh;
      RefreshImages(apps, refresh, checked, now, set k | k in prevCheck && Due(parse, interval, now, prevCheck[k], apps[k]));
      AfterIs(parse, interval, now, checked, old(prevCheck), apps, prevCheck);
      GroupsMean(parse, interval, now, old(prevCheck), apps, groups);
      TimesMean(parse, interval, now, checked, old(prevCheck), apps, groups);
      var wake := NearestNextCheck(apps, interval, now);
      WakeUpMeans(parse, interval, now, prevCheck, apps, wake);
      r := Done(wake);
    }

    /** Indexes the listed apps and starts tracking new ones. */
    method AddNew(listed: seq<App>) returns (apps: Apps)
      modifies this
      ensures apps == AppsOf(listed)
      ensures forall k :: k in old(prevCheck) ==> k in prevCheck && prevCheck[k] == old(prevCheck)[k]
      ensures forall k :: k in prevCheck && k !in old(prevCheck) ==> prevCheck[k] == ZERO_TIME
      ensures forall k :: k in apps && Enabled(apps[k]) ==> k in prevCheck
    {
      apps := map[];
      for i := 0 to |listed|
        invariant apps == AppsOf(listed[..i])
        invariant forall k :: k in old(prevCheck) ==> k in prevCheck && prevCheck[k] == old(prevCheck)[k]
        invariant forall k :: k in prevCheck && k !in old(prevCheck) ==> prevCheck[k] == ZERO_TIME
        invariant forall k :: k in apps && Enabled(apps[k]) ==> k in prevCheck
      {
        assert listed[..i + 1][..i] == listed[..i];
        var app := listed[i];
        apps := apps[app.key := app];
        if Enabled(app) && app.key !in prevCheck {
          prevCheck := prevCheck[app.key := ZERO_TIME];
        }
      }
      assert listed[..|listed|] == listed;
    }

    /** Drops apps that are gone or switched off, and groups those that are due by image and namespace. */
    method DetermineAppsToRefresh(apps: Apps, interval: int, now: Time, ghost before: Checks) returns (groups: Groups)
      requires forall k :: k in before ==> k in prevCheck && prevCheck[k] == before[k]
      requires forall k :: k in prevCheck && k !in before ==> prevCheck[k] == ZERO_TIME
      requires forall k :: k in apps && Enabled(apps[k]) ==> k in prevCheck
      modifies this
      ensures prevCheck == Tracked(before, apps)
      ensures GroupsExactly(groups, apps, set k | k in prevCheck && Due(parse, interval, now, prevCheck[k], apps[k]))
    {
      groups := map[];
      var todo := prevCheck.Keys;
      ghost var due: set<Key> := {};
      ghost var was := prevCheck;
      while todo != {}
        invariant todo <= prevCheck.Keys
        invariant Pruned(was, prevCheck, todo, apps)
        invariant DueAmong(parse, interval, now, prevCheck, todo, apps, due)
        invariant GroupsExactly(groups, apps, due)
      {
        var k :| k in todo;
        if k !in apps || !Enabled(apps[k]) {
          todo := todo - {k};
          prevCheck := prevCheck - {k};
          continue;
        }
        var next := NextCheck(parse, interval, prevCheck[k], apps[k]);
        todo := todo - {k};
        if next.Some? && next.value < now {
          var ik := ImageKeyOf(apps[k]);
          GroupsGrow(groups, apps, due, k);
          groups := groups[ik := (if ik in groups then groups[ik] else []) + [k]];
          due := due + {k};
        }
      }
      PrunedIsTracked(before, was, prevCheck, apps);
      assert due == set k | k in prevCheck && Due(parse, interval, now, prevCheck[k], apps[k]);
    }

    /** The effect of the image checks on the check times, group by group. */
    method RefreshImages(apps: Apps, groups: Groups, checked: (ImageKey, Key) -> bool, now: Time, ghost due: set<Key>)
      requires GroupsExactly(groups, apps, due) && due <= prevCheck.Keys && forall k :: k in prevCheck ==> k in apps
      modifies this
      ensures prevCheck.Keys == old(prevCheck).Keys
      ensures forall k :: k in prevCheck ==> prevCheck[k] == if k in due && checked(ImageKeyOf(apps[k]), k) then now else old(prevCheck)[k]
    {
      var todo := groups.Keys;
      while todo != {}
        invariant todo <= groups.Keys
        invariant prevCheck.Keys == old(prevCheck).Keys
        invariant forall k :: k in prevCheck ==>
                    prevCheck[k] == if k in due && ImageKeyOf(apps[k]) !in todo && checked(ImageKeyOf(apps[k]), k) then now else old(prevCheck)[k]
      {
        var ik :| ik in todo;
        todo := todo - {ik};
        RefreshGroup(groups[ik], ik, checked, now);
      }
    }

    method RefreshGroup(keys: seq<Key>, ik: ImageKey, checked: (ImageKey, Key) -> bool, now: Time)
      requires forall k :: k in keys ==> k in prevCheck
      modifies this
      ensures prevCheck.Keys == old(prevCheck).Keys
      ensures forall k :: k in prevCheck ==> prevCheck[k] == if k in keys && checked(ik, k) then now else old(prevCheck)[k]
    {
      for i := 0 to |keys|
        invariant prevCheck.Keys == old(prevCheck).Keys
        invariant forall k :: k in prevCheck ==> prevCheck[k] == if k in keys[..i] && checked(ik, k) then now else old(prevCheck)[k]
      {
        assert keys[..i + 1] == keys[..i] + [keys[i]];
        if checked(ik, keys[i]) {
          prevCheck := prevCheck[keys[i] := now];
        }
      }
      assert keys[..|keys|] == keys;
    }

    method NearestNextCheck(apps: Apps, interval: int, now: Time) returns (wake: Time)
      requires forall k :: k in prevCheck ==> k in apps
      ensures IsWakeUp(parse, interval, now, prevCheck, apps, wake)
    {
      wake := now + interval;
      var todo := prevCheck.Keys;
      while todo != {}
        invariant todo <= prevCheck.Keys && wake <= now + interval
        invariant forall k :: k in prevCheck && k !in todo && NextCheck(parse, interval, prevCheck[k], apps[k]).Some? ==>
                    wake <= NextCheck(parse, interval, prevCheck[k], apps[k]).value
        invariant wake == now + interval || exists k :: k in prevCheck && NextCheck(parse, interval, prevCheck[k], apps[k]) == Some(wake)
      {
        var k :| k in todo;
        todo := todo - {k};
        var next := NextCheck(parse, interval, prevCheck[k], apps[k]);
        if next.Some? && next.value < wake {
          wake := next.value;
        }
      }
    }
  }

  /** Of the keys already visited, exactly those of listed apps with auto-upgrade on are left, with their times. */
  ghost predicate Pruned(was: Checks, checks: Checks, todo: set<Key>, apps: Apps) {
    && (forall k :: k in checks ==> k in was && checks[k] == was[k] && (k in todo || (k in apps && Enabled(apps[k]))))
    && (forall k :: k in was && (k in todo || (k in apps && Enabled(apps[k]))) ==> k in checks)
  }

  ghost predicate DueAmong(parse: string -> Option<int>, interval: int, now: Time, checks: Checks, todo: set<Key>, apps: Apps, due: set<Key>) {
    forall k :: k in due <==> k in checks && k !in todo && k in apps && Due(parse, interval, now, checks[k], apps[k])
  }

  lemma PrunedIsTracked(before: Checks, was: Checks, checks: Checks, apps: Apps)
    requires forall k :: k in before ==> k in was && was[k] == before[k]
    requires forall k :: k in was && k !in before ==> was[k] == ZERO_TIME
    requires forall k :: k in apps && Enabled(apps[k]) ==> k in was
    requires Pruned(was, checks, {}, apps)
    ensures checks == Tracked(before, apps)
  {
  }

  lemma AfterIs(parse: string -> Option<int>, interval: int, now: Time, checked: (ImageKey, Key) -> bool, prev: Checks, apps: Apps, checks: Checks)
    requires checks.Keys == Tracked(prev, apps).Keys
    requires forall k :: k in checks ==>
               checks[k] == if Due(parse, interval, now, Tracked(prev, apps)[k], apps[k]) && checked(ImageKeyOf(apps[k]), k) then now
                            else Tracked(prev, apps)[k]
    ensures checks == After(parse, interval, now, checked, prev, apps)
  {
  }

  lemma GroupsGrow(groups: Groups, apps: Apps, due: set<Key>, k: Key)
    requires GroupsExactly(groups, apps, due) && k in apps && k !in due
    ensures var ik := ImageKeyOf(apps[k]);
            GroupsExactly(groups[ik := (if ik in groups then groups[ik] else []) + [k]], apps, due + {k})
  {
    var ik := ImageKeyOf(apps[k]);
    var was := if ik in groups then groups[ik] else [];
    var groups' := groups[ik := was + [k]];
    assert forall x :: x in was + [k] <==> x in was || x == k;
  }

  // ---------- Runs of syncs ----------

  /** What one successful sync is given. */
  datatype Round = Round(interval: int, now: Time, apps: Apps, checked: (ImageKey, Key) -> bool)

  function Step(parse: string -> Option<int>, prev: Checks, r: Round): Checks { After(parse, r.interval, r.now, r.checked, prev, r.apps) }

  function Run(parse: string -> Option<int>, prev: Checks, rounds: seq<Round>): Checks
    decreases |rounds|
  {
    if rounds == [] then prev else Run(parse, Step(parse, prev, rounds[0]), rounds[1..])
  }

  ghost predicate ClockForward(rounds: seq<Round>) {
    (forall i :: 0 <= i < |rounds| ==> ZERO_TIME <= rounds[i].now) &&
    forall i, j :: 0 <= i < j < |rounds| ==> rounds[i].now <= rounds[j].now
  }

  ghost predicate NotAfter(checks: Checks, t: Time) { forall k :: k in checks ==> checks[k] <= t }

  /** With a clock that never goes back, an app that stays tracked never has its check time moved back, over any number of syncs. */
  lemma {:induction false} CheckTimesNeverDecrease(parse: string -> Option<int>, prev: Checks, rounds: seq<Round>, k: Key)
    requires ClockForward(rounds) && (rounds != [] ==> NotAfter(prev, rounds[0].now))
    requires k in prev && forall r :: r in rounds ==> k in r.apps && Enabled(r.apps[k])
    ensures k in Run(parse, prev, rounds) && prev[k] <= Run(parse, prev, rounds)[k]
    ensures rounds != [] ==> NotAfter(Run(parse, prev, rounds), rounds[|rounds| - 1].now)
    decreases |rounds|
  {
    if rounds != [] {
      var r, next := rounds[0], Step(parse, prev, rounds[0]);
      assert r in rounds;
      assert NotAfter(next, r.now);
      CheckTimesNeverDecrease(parse, next, rounds[1..], k);
      if |rounds| > 1 { assert rounds[1..][|rounds| - 2] == rounds[|rounds| - 1]; }
    }
  }

  /** An app seen for the first time, and created after the zero time, is due at once, even if its interval does not parse. */
  lemma NewAppsAreDue(parse: string -> Option<int>, interval: int, now: Time, prev: Checks, apps: Apps, k: Key)
    requires k in apps && Enabled(apps[k]) && k !in prev && apps[k].created > ZERO_TIME && now > ZERO_TIME
    ensures k in Tracked(prev, apps) && Due(parse, interval, now, Tracked(prev, apps)[k], apps[k])
  {
  }
}
