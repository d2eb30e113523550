/** Publishing a candidate (`publish` in `scripts/automation_publish.py`): the stable tag, and the
    reconciliation of the remote assets with the candidate. Every command may fail, before or after it took
    effect, and an upload may get through in part. */
module Publish {
  import opened Common

  /** File contents by name; digests are taken as injective, so contents stand for them. */
  type Assets = map<string, seq<int>>

  const MANIFEST := "release-manifest.json"

  datatype Release = Absent | Draft(assets: Assets) | Prerelease(assets: Assets) | Published(assets: Assets)

  /** The files of a candidate, and how a manifest's identity fields are read. */
  datatype Candidate = Candidate(files: Assets, sha: string, identity: seq<int> -> string)

  /** A published manifest, if there is one, identifies the same release as the candidate's. */
  ghost predicate SameIdentity(c: Candidate, assets: Assets) {
    MANIFEST in assets && MANIFEST in c.files ==> c.identity(assets[MANIFEST]) == c.identity(c.files[MANIFEST])
  }

  /** Every remote asset is an original one or the candidate's, and none that already matched is gone. */
  ghost predicate Between(c: Candidate, before: Assets, now: Assets) {
    && (forall name :: name in now ==>
          || (name in before && now[name] == before[name])
          || (name in c.files && now[name] == c.files[name]))
    && (forall name :: name in before && name in c.files && before[name] == c.files[name] ==>
          name in now && now[name] == before[name])
  }

  /** GitHub and the git remote. `failures` counts commands that failed although nothing on the remote forbade
      them, `mutations` those that were sent to change the release. `draftsListed` says whether the query for a
      release by its tag shows drafts; nothing here depends on which it is. */
  class Remote {
    const draftsListed: bool
    var release: Release
    var localTag: Option<string>
    var remoteTag: Option<string>
    ghost var failures: nat
    ghost var mutations: nat

    constructor (release: Release, localTag: Option<string>, remoteTag: Option<string>, draftsListed: bool)
      ensures this.draftsListed == draftsListed
      ensures this.release == release && this.localTag == localTag && this.remoteTag == remoteTag
      ensures failures == 0 && mutations == 0
    {
      this.draftsListed := draftsListed;
      this.release, this.localTag, this.remoteTag := release, localTag, remoteTag;
      failures, mutations := 0, 0;
    }

    /** A command that only reads. */
    method Read() returns (ok: bool)
      modifies this`failures
      ensures failures == if ok then old(failures) else old(failures) + 1
    {
      ok := *;
      if !ok {
        failures := failures + 1;
      }
    }

    /** `git tag`, in the clone. */
    method Tag(sha: string) returns (ok: bool)
      requires localTag.None?
      modifies this`localTag, this`failures
      ensures localTag.None? || localTag == Some(sha)
      ensures ok ==> localTag == Some(sha) && failures == old(failures)
      ensures !ok ==> failures == old(failures) + 1
    {
      ok := *;
      if ok {
        localTag := Some(sha);
      } else {
        failures := failures + 1;
        if * {
          localTag := Some(sha);
        }
      }
    }

    /** `git push` of a tag is refused when the remote already has another commit there. */
    method PushTag(sha: string) returns (ok: bool)
      modifies this`remoteTag, this`failures
      ensures old(remoteTag).Some? ==> remoteTag == old(remoteTag)
      ensures remoteTag == old(remoteTag) || remoteTag == Some(sha)
      ensures ok ==> remoteTag == Some(sha) && failures == old(failures)
      ensures old(remoteTag).Some? && old(remoteTag) != Some(sha) ==> !ok && failures == old(failures)
      ensures !ok && (old(remoteTag).None? || old(remoteTag) == Some(sha)) ==> failures == old(failures) + 1
    {
      if remoteTag.Some? && remoteTag.value != sha {
        return false;
      }
      ok := *;
      if ok {
        remoteTag := Some(sha);
      } else {
        failures := failures + 1;
        if * {
          remoteTag := Some(sha);
        }
      }
    }

    /** `gh release create --verify-tag`: refused without a tag on the remote. Otherwise it publishes all files,
        or leaves the release as it was, a draft, or a release whose creation was not reported. */
    method Create(files: Assets) returns (ok: bool)
      requires release.Absent? || release.Draft?
      modifies this`release, this`failures, this`mutations
      ensures mutations == old(mutations) + 1
      ensures remoteTag.None? ==> !ok && release == old(release) && failures == old(failures)
      ensures ok ==> release == Published(files) && failures == old(failures)
      ensures !ok && remoteTag.Some? ==>
                && failures == old(failures) + 1
                && (release == old(release) || release.Draft? || release == Published(files))
    {
      mutations := mutations + 1;
      if remoteTag.None? {
        return false;
      }
      ok := *;
      if ok {
        release := Published(files);
      } else {
        failures := failures + 1;
        if * {
          var some: Assets := *;
          release := Draft(some);
        } else if * {
          release := Published(files);
        }
      }
    }

    method Delete(name: string) returns (ok: bool)
      requires release.Published?
      modifies this`release, this`failures, this`mutations
      ensures release.Published? && mutations == old(mutations) + 1
      ensures ok ==> release.assets == old(release.assets) - {name} && failures == old(failures)
      ensures !ok ==> failures == old(failures) + 1
      ensures release.assets == old(release.assets) || release.assets == old(release.assets) - {name}
    {
      mutations := mutations + 1;
      ok := *;
      if ok {
        release := Published(release.assets - {name});
      } else {
        failures := failures + 1;
        if * {
          release := Published(release.assets - {name});
        }
      }
    }

    /** Uploads all given files, or some of them before failing. */
    method Upload(files: Assets) returns (ok: bool, ghost part: set<string>)
      requires release.Published?
      modifies this`release, this`failures, this`mutations
      ensures release.Published? && mutations == old(mutations) + 1
      ensures ok ==> release.assets == old(release.assets) + files && failures == old(failures)
      ensures !ok ==> failures == old(failures) + 1
      ensures !ok ==> release.assets == old(release.assets) + Only(files, part)
    {
      mutations := mutations + 1;
      ok := *;
      var arrived: set<string> := *;
      part := arrived;
      if ok {
        release := Published(release.assets + files);
      } else {
        failures := failures + 1;
        release := Published(release.assets + Only(files, arrived));
      }
    }
  }

  function Only(files: Assets, names: set<string>): Assets {
    map name | name in files && name in names :: files[name]
  }

  /** The names whose remote asset must go: unexpected ones and those that differ. */
  function Stale(c: Candidate, assets: Assets): set<string> {
    set name | name in assets && (name !in c.files || assets[name] != c.files[name])
  }

  /** The candidate's files the release does not have. */
  function Lacking(c: Candidate, assets: Assets): Assets {
    map name | name in c.files && name !in assets :: c.files[name]
  }

  /** Deletes the stale assets one by one. */
  method DeleteStale(remote: Remote, c: Candidate) returns (ok: bool)
    requires remote.release.Published?
    modifies remote`release, remote`failures, remote`mutations
    ensures remote.release.Published? && Between(c, old(remote.release.assets), remote.release.assets)
    ensures forall name :: name in remote.release.assets ==>
              name in old(remote.release.assets) && remote.release.assets[name] == old(remote.release.assets)[name]
    ensures ok <==> remote.failures == old(remote.failures)
    ensures remote.failures >= old(remote.failures)
    ensures ok ==> Stale(c, remote.release.assets) == {}
    ensures Stale(c, old(remote.release.assets)) == {} ==>
              ok && remote.release == old(remote.release) && remote.mutations == old(remote.mutations)
  {
    ghost var before := remote.release.assets;
    var pending := Stale(c, remote.release.assets);
    while pending != {}
      invariant remote.release.Published? && remote.failures == old(remote.failures)
      invariant pending <= Stale(c, before)
      invariant forall name :: name in remote.release.assets ==>
                  name in before && remote.release.assets[name] == before[name] &&
                  (name in Stale(c, before) ==> name in pending)
      invariant forall name :: name in before && name !in Stale(c, before) ==> name in remote.release.assets
      invariant Stale(c, before) == {} ==>
                  remote.release == old(remote.release) && remote.mutations == old(remote.mutations)
      decreases pending
    {
      var name :| name in pending;
      ok := remote.Delete(name);
      if !ok {
        return;
      }
      pending := pending - {name};
    }
    ok := true;
  }

  /** One reconciliation pass over a published release: identity check, deletions, upload, verification.
      If no other command fails, it succeeds exactly when the identity matches or the manifest could not be
      read: a failed read counts as no manifest, and then a release of another identity is replaced. */
  method Reconcile(remote: Remote, c: Candidate) returns (ok: bool, ghost manifestRead: bool)
    requires remote.release.Published? && MANIFEST in c.files
    modifies remote`release, remote`failures, remote`mutations
    ensures remote.release.Published? && Between(c, old(remote.release.assets), remote.release.assets)
    ensures SameIdentity(c, old(remote.release.assets)) ==> SameIdentity(c, remote.release.assets)
    ensures ok ==> remote.release.assets == c.files
    ensures remote.failures == old(remote.failures) + (if manifestRead then 0 else 1) ==>
              (ok <==> SameIdentity(c, old(remote.release.assets)) || !manifestRead)
    ensures old(remote.release.assets) == c.files ==>
              remote.release == old(remote.release) && remote.mutations == old(remote.mutations)
    ensures !SameIdentity(c, old(remote.release.assets)) && manifestRead ==>
              !ok && remote.release == old(remote.release) && remote.mutations == old(remote.mutations)
    ensures !manifestRead ==> remote.failures > old(remote.failures)
    ensures remote.failures >= old(remote.failures)
  {
    var assets := remote.release.assets;
    var readable := remote.Read();
    manifestRead := readable;
    if readable && MANIFEST in assets && c.identity(assets[MANIFEST]) != c.identity(c.files[MANIFEST]) {
      ok := false;
      return;
    }
    if assets != map[] {
      ok := remote.Read();
      if !ok {
        return;
      }
    }
    ok := DeleteStale(remote, c);
    if !ok {
      return;
    }
    var missing := Lacking(c, remote.release.assets);
    ghost var kept := remote.release.assets;
    if missing != map[] {
      ghost var part;
      ok, part := remote.Upload(missing);
      if !ok {
        return;
      }
    }
    assert remote.release.assets == c.files by { Completed(c, kept); }
    ok := remote.Read();
  }

  /** What is left after the deletions and the missing files together are the candidate. */
  lemma Completed(c: Candidate, kept: Assets)
    requires Stale(c, kept) == {}
    ensures kept + Lacking(c, kept) == c.files
    ensures Lacking(c, kept) == map[] ==> kept == c.files
  {
    forall name | name in kept ensures name in c.files && kept[name] == c.files[name] {
      assert name !in Stale(c, kept);
    }
    forall name | name in c.files && name !in kept ensures name in Lacking(c, kept) {
    }
  }

  /** The tag step can go through: the clone has the tag on the candidate's commit, or it has none and the
      remote has no other. */
  predicate TagFits(localTag: Option<string>, remoteTag: Option<string>, sha: string) {
    localTag == Some(sha) || (localTag.None? && (remoteTag.None? || remoteTag == Some(sha)))
  }

  /** The tag step: an absent tag is set to the candidate's commit, a different one stops the run. */
  method EnsureTag(remote: Remote, sha: string) returns (ok: bool)
    modifies remote`localTag, remote`remoteTag, remote`failures
    ensures old(remote.localTag).Some? ==>
              remote.localTag == old(remote.localTag) && remote.remoteTag == old(remote.remoteTag)
    ensures old(remote.remoteTag).Some? ==> remote.remoteTag == old(remote.remoteTag)
    ensures old(remote.localTag).None? ==> remote.localTag.None? || remote.localTag == Some(sha)
    ensures remote.remoteTag == old(remote.remoteTag) || remote.remoteTag == Some(sha)
    ensures ok ==> remote.localTag == Some(sha) && TagFits(old(remote.localTag), old(remote.remoteTag), sha)
    ensures ok && old(remote.localTag).None? ==> remote.remoteTag == Some(sha)
    ensures remote.failures >= old(remote.failures)
    ensures remote.failures == old(remote.failures) ==>
              (ok <==> TagFits(old(remote.localTag), old(remote.remoteTag), sha))
  {
    if remote.localTag.None? {
      ok := remote.Tag(sha);
      if ok {
        ok := remote.PushTag(sha);
      }
    } else {
      ok := remote.localTag.value == sha;
    }
  }

  /** The state lets a run go through: the tag fits, and the release is published under the same identity, or
      to be created with its tag on the remote. A draft counts as absent where the query does not show it. */
  ghost predicate Ready(remote: Remote, c: Candidate)
    reads remote
  {
    && TagFits(remote.localTag, remote.remoteTag, c.sha)
    && match remote.release
       case Published(assets) => SameIdentity(c, assets)
       case Prerelease(_) => false
       case Absent => remote.localTag.None? || remote.remoteTag.Some?
       case Draft(_) => !remote.draftsListed && (remote.localTag.None? || remote.remoteTag.Some?)
  }

  /** The clone has the tag, the remote does not, and there is no release to reconcile. */
  ghost predicate Unpushed(remote: Remote, c: Candidate)
    reads remote
  {
    remote.localTag == Some(c.sha) && remote.remoteTag.None? && !remote.release.Published?
  }

  /** One publishing run. It never moves an existing tag. When no command fails it succeeds exactly from a ready
      state, and success means exactly the candidate. Three dead ends are left as they are by every run: a tag
      that was set in the clone but never reached the remote, a prerelease, and a draft the query shows. */
  method Publish(remote: Remote, c: Candidate) returns (ok: bool)
    requires MANIFEST in c.files
    modifies remote
    ensures old(remote.localTag).Some? ==>
              remote.localTag == old(remote.localTag) && remote.remoteTag == old(remote.remoteTag)
    ensures old(remote.remoteTag).Some? ==> remote.remoteTag == old(remote.remoteTag)
    ensures ok ==> remote.localTag == Some(c.sha) && remote.release == Published(c.files)
    ensures remote.failures == old(remote.failures) ==> (ok <==> old(Ready(remote, c)))
    ensures !TagFits(old(remote.localTag), old(remote.remoteTag), c.sha) ==>
              !ok && remote.release == old(remote.release)
    ensures old(remote.release).Prerelease? || (old(remote.release).Draft? && remote.draftsListed) ==>
              !ok && remote.release == old(remote.release)
    ensures old(Unpushed(remote, c)) ==> !ok && Unpushed(remote, c) && remote.release == old(remote.release)
    ensures old(remote.release).Published? ==>
              remote.release.Published? && Between(c, old(remote.release).assets, remote.release.assets)
    ensures old(remote.release).Published? && SameIdentity(c, old(remote.release).assets) ==>
              SameIdentity(c, remote.release.assets)
    ensures old(remote.release).Published? && old(Ready(remote, c)) ==> Ready(remote, c)
    ensures old(remote.release) == Published(c.files) ==>
              remote.release == old(remote.release) && remote.mutations == old(remote.mutations)
  {
    ok := EnsureTag(remote, c.sha);
    if !ok {
      return;
    }
    ok := remote.Read();
    if !ok {
      return;
    }
    if remote.release.Prerelease? || (remote.release.Draft? && remote.draftsListed) {
      return false;
    }
    if remote.release.Published? {
      ghost var manifestRead;
      ok, manifestRead := Reconcile(remote, c);
      return;
    }
    ok := remote.Create(c.files);
    if ok {
      ok := remote.Read();
    }
  }

  /** Three runs from any state, however the first one went. If no command fails in the second, it succeeds
      exactly when the first left a ready state, and then the third sends no change. The first leaves one
      whenever it succeeded, or started ready from a published release. */
  method PublishAgain(remote: Remote, c: Candidate)
    returns (first: bool, second: bool, third: bool, ghost ready: bool, ghost failed: bool, ghost quiet: bool)
    requires MANIFEST in c.files
    modifies remote
    ensures first || (old(remote.release).Published? && old(Ready(remote, c))) ==> ready
    ensures !failed ==> (second <==> ready)
    ensures second ==> remote.release == Published(c.files) && quiet
    ensures old(remote.localTag).Some? ==> remote.localTag == old(remote.localTag)
  {
    first := Publish(remote, c);
    ready := Ready(remote, c);
    ghost var failures := remote.failures;
    second := Publish(remote, c);
    failed := remote.failures != failures;
    ghost var mutations := remote.mutations;
    third := Publish(remote, c);
    quiet := remote.mutations == mutations;
  }
}
