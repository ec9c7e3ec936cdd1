/** `okteto destroy` and the record of the environment (cmd/destroy/destroy.go,
    pkg/deployable/destroy.go): what the record may say at each exit. */
module DestroyProtocol {
  import opened Options
  import opened Records

  // ----- the custom commands -----

  /** `results[i]`: the failure of command `i`, if it fails. `setup`: the failure of the helm setup. */
  method RunDestroy(setup: Option<Err>, results: seq<Option<Err>>, force: bool)
    returns (err: Option<Err>, attempted: nat)
    ensures attempted <= |results|
    ensures setup.Some? ==> err == setup && attempted == 0
    ensures err.None? <==> setup.None? && forall i :: 0 <= i < |results| ==> results[i].None?
    // all of them with force, otherwise up to the first failure
    ensures setup.None? && force ==> attempted == |results|
    ensures setup.None? && !force ==> forall i :: 0 <= i < attempted - 1 ==> results[i].None?
    ensures setup.None? && !force && attempted < |results| ==> attempted > 0 && results[attempted - 1].Some?
    // the last failure among the attempted ones is the one reported; without force it is the first of all
    ensures setup.None? && !force && err.Some? ==> exists i :: FirstFailure(results, i) && results[i] == err
    ensures setup.None? && err.Some? ==> exists i :: LastFailure(results, i, attempted) && results[i] == err
  {
    if setup.Some? {
      return setup, 0;
    }
    err, attempted := None, 0;
    while attempted < |results|
      invariant 0 <= attempted <= |results|
      invariant err.None? <==> forall i :: 0 <= i < attempted ==> results[i].None?
      invariant !force ==> err.None?
      invariant err.Some? ==> exists i :: LastFailure(results, i, attempted) && results[i] == err
    {
      var result := results[attempted];
      attempted := attempted + 1;
      if result.Some? {
        err := result;
        assert LastFailure(results, attempted - 1, attempted);
        if !force {
          assert FirstFailure(results, attempted - 1);
          return;
        }
      } else if err.Some? {
        ghost var i :| LastFailure(results, i, attempted - 1) && results[i] == err;
        assert LastFailure(results, i, attempted);
      }
    }
  }

  ghost predicate LastFailure(results: seq<Option<Err>>, i: int, n: int) {
    0 <= i < n <= |results| && results[i].Some? && forall j :: i < j < n ==> results[j].None?
  }

  ghost predicate FirstFailure(results: seq<Option<Err>>, i: int) {
    0 <= i < |results| && results[i].Some? && forall j :: 0 <= j < i ==> results[j].None?
  }

  // ----- helm releases -----

  datatype Secret = Secret(helmType: bool, helmOwner: bool, name: Option<string>)

  ghost function Releases(secrets: seq<Secret>): set<string> {
    set k | 0 <= k < |secrets| && secrets[k].helmType && secrets[k].helmOwner && secrets[k].name.Some? :: secrets[k].name.value
  }

  /** Every release once, in any order; without force the first failure ends it. */
  method DestroyHelmReleases(secrets: Option<seq<Secret>>, failing: map<string, Err>, listing: Err, force: bool)
    returns (err: Option<Err>, uninstalled: seq<string>)
    ensures secrets.None? ==> err == Some(listing) && uninstalled == []
    ensures forall i, j :: 0 <= i < j < |uninstalled| ==> uninstalled[i] != uninstalled[j]
    ensures secrets.Some? ==> forall x :: x in uninstalled ==> x in Releases(secrets.value)
    ensures secrets.Some? && err.None? ==> forall x :: Secret(true, true, Some(x)) in secrets.value <==> x in uninstalled
    ensures secrets.Some? && err.None? ==> forall x :: x in Releases(secrets.value) ==> x in uninstalled
    ensures secrets.Some? ==>
      (err.None? <==> force || forall x :: x in Releases(secrets.value) ==> x !in failing)
    ensures secrets.Some? && err.Some? ==>
      exists x :: x in Releases(secrets.value) && x in failing && failing[x] == err.value
  {
    uninstalled := [];
    if secrets.None? {
      return Some(listing), uninstalled;
    }
    var list := secrets.value;
    var releases: set<string> := {};
    for i := 0 to |list|
      invariant releases == Releases(list[..i])
    {
      assert list[..i + 1] == list[..i] + [list[i]];
      ReleasesSnoc(list[..i], list[i]);
      if list[i].helmType && list[i].helmOwner && list[i].name.Some? {
        releases := releases + {list[i].name.value};
      }
    }
    assert list[..|list|] == list;
    forall x ensures x in releases <==> Secret(true, true, Some(x)) in list {
      ReleasesIff(list, x);
    }
    var rest := releases;
    while rest != {}
      invariant rest <= releases && forall x :: x in releases ==> (x in rest <==> x !in uninstalled)
      invariant forall x :: x in uninstalled ==> x in releases && (force || x !in failing)
      invariant forall i, j :: 0 <= i < j < |uninstalled| ==> uninstalled[i] != uninstalled[j]
    {
      var x :| x in rest;
      assert forall i :: 0 <= i < |uninstalled| ==> uninstalled[i] in uninstalled;
      uninstalled, rest := uninstalled + [x], rest - {x};
      if x in failing && !force {
        return Some(failing[x]), uninstalled;
      }
    }
    err := None;
  }

  /** A release is named by a secret of the helm type with the helm owner. */
  lemma ReleasesIff(secrets: seq<Secret>, x: string)
    ensures x in Releases(secrets) <==> Secret(true, true, Some(x)) in secrets
  {
  }

  lemma ReleasesSnoc(secrets: seq<Secret>, s: Secret)
    ensures Releases(secrets + [s]) == Releases(secrets) +
      (if s.helmType && s.helmOwner && s.name.Some? then {s.name.value} else {})
  {
    var all := secrets + [s];
    assert all[|secrets|] == s;
    forall x | x in Releases(secrets) ensures x in Releases(all) {
      var k :| 0 <= k < |secrets| && secrets[k].helmType && secrets[k].helmOwner && secrets[k].name.Some? && secrets[k].name.value == x;
      assert all[k] == secrets[k];
    }
  }

  // ----- the whole command -----

  datatype Flags = Flags(force: bool, withDependencies: bool, hasDivert: bool)

  /** What the outside answers, in the order it is asked. */
  datatype Answers = Answers(
    write: Option<Err>,             // writing the Destroying record
    dependencies: Option<Err>,
    divert: Option<Err>,
    interrupt: Option<Err>,         // the destroyer was interrupted
    setup: Option<Err>,             // helm setup before the commands
    commands: seq<Option<Err>>,
    volumes: Option<Err>,
    secrets: Option<seq<Secret>>,
    listing: Err,
    helm: map<string, Err>,
    labels: Option<Err>,
    update: Option<Err>,            // writing the Error status
    delete: Option<Err>)            // deleting the record

  datatype Effect = WroteDestroying | DestroyedVolumes | DestroyedByLabel | WroteError | DeletedRecord

  // What the answers say about the stages.

  predicate DependenciesFail(o: Flags, a: Answers) {
    o.withDependencies && a.dependencies.Some?
  }

  predicate DivertFails(o: Flags, a: Answers) {
    o.hasDivert && a.divert.Some?
  }

  ghost predicate CommandsPass(a: Answers) {
    a.setup.None? && forall i :: 0 <= i < |a.commands| ==> a.commands[i].None?
  }

  /** The commands end the run: an interrupt always does, a failure only without force. */
  ghost predicate CommandsStop(o: Flags, a: Answers) {
    a.commands != [] && (a.interrupt.Some? || (!CommandsPass(a) && (!o.force || CommandsInterrupted(a))))
  }

  /** The failure reported by the commands is itself an interrupt. */
  ghost predicate CommandsInterrupted(a: Answers) {
    if a.setup.Some? then a.setup.value.interrupt
    else exists i :: LastFailure(a.commands, i, |a.commands|) && a.commands[i].value.interrupt
  }

  ghost predicate HelmFails(o: Flags, a: Answers) {
    !o.force && (a.secrets.None? || exists x :: x in Releases(a.secrets.value) && x in a.helm)
  }

  ghost predicate ResourcesFail(o: Flags, a: Answers) {
    a.volumes.Some? || HelmFails(o, a) || a.labels.Some?
  }

  /** The run gets as far as deleting the record. */
  ghost predicate ReachesDeletion(o: Flags, a: Answers) {
    && a.write.None? && !DependenciesFail(o, a) && !DivertFails(o, a)
    && !CommandsStop(o, a) && !ResourcesFail(o, a)
  }

  /** The run fails in a stage that reports its failure in the record. */
  ghost predicate FailsReported(o: Flags, a: Answers) {
    && a.write.None?
    && (DependenciesFail(o, a)
        || (!DivertFails(o, a) && (CommandsStop(o, a) || ResourcesFail(o, a))))
  }

  /** The record is deleted if and only if, with what may be forced: everything that applies passes, and the
      commands are not interrupted. */
  lemma ReachesDeletionIff(o: Flags, a: Answers)
    // a run that does not get there reports in the record, unless the divert is to blame
    ensures a.write.None? ==> (FailsReported(o, a) <==>
      !ReachesDeletion(o, a) && ((o.withDependencies && a.dependencies.Some?) || !(o.hasDivert && a.divert.Some?)))
    ensures ReachesDeletion(o, a) <==>
      && a.write.None? && (o.withDependencies ==> a.dependencies.None?) && (o.hasDivert ==> a.divert.None?)
      && (a.commands != [] ==> a.interrupt.None?)
      && (a.commands != [] && !o.force ==> a.setup.None? && forall i :: 0 <= i < |a.commands| ==> a.commands[i].None?)
      && (a.commands != [] && a.setup.Some? ==> !a.setup.value.interrupt)
      && (a.commands != [] && a.setup.None? ==>
            forall i :: 0 <= i < |a.commands| && a.commands[i].Some? && a.commands[i].value.interrupt ==>
              exists j :: i < j < |a.commands| && a.commands[j].Some?)
      && a.volumes.None? && a.labels.None?
      && (o.force || (a.secrets.Some? && forall x :: Secret(true, true, Some(x)) in a.secrets.value ==> x !in a.helm))
  {
    if a.secrets.Some? {
      forall x ensures x in Releases(a.secrets.value) <==> Secret(true, true, Some(x)) in a.secrets.value {
        ReleasesIff(a.secrets.value, x);
      }
    }
    InterruptedIff(a.commands);
  }

  lemma InterruptedIff(results: seq<Option<Err>>)
    ensures (exists i :: LastFailure(results, i, |results|) && results[i].value.interrupt) <==>
      exists i :: 0 <= i < |results| && results[i].Some? && results[i].value.interrupt && forall j :: i < j < |results| ==> results[j].None?
  {
    if i :| 0 <= i < |results| && results[i].Some? && results[i].value.interrupt && forall j :: i < j < |results| ==> results[j].None? {
      assert LastFailure(results, i, |results|);
    }
  }

  // Which failure a stage returns.

  /** The interrupt, the failed setup, or a failed command: the last one with force, otherwise the first. */
  ghost predicate CommandsReturn(o: Flags, a: Answers, e: Err) {
    if a.interrupt.Some? then e == a.interrupt.value
    else if a.setup.Some? then e == a.setup.value
    else if o.force then exists i :: LastFailure(a.commands, i, |a.commands|) && a.commands[i] == Some(e)
    else exists i :: FirstFailure(a.commands, i) && a.commands[i] == Some(e)
  }

  /** The listing, or any of the failing releases: the order in which they are tried is open. */
  ghost predicate HelmReturns(a: Answers, e: Err) {
    if a.secrets.None? then e == a.listing
    else exists x :: x in Releases(a.secrets.value) && x in a.helm && a.helm[x] == e
  }

  ghost predicate ResourcesReturn(o: Flags, a: Answers, e: Err) {
    if a.volumes.Some? then e == a.volumes.value
    else if HelmFails(o, a) then HelmReturns(a, e)
    else a.labels == Some(e)
  }

  /** The error of a run that fails: of the first stage that ends it, unless reporting that in the record fails
      too; after a complete clean-up, of the forced commands. */
  ghost predicate Returns(o: Flags, a: Answers, e: Err) {
    if a.write.Some? then e == a.write.value
    else if FailsReported(o, a) && a.update.Some? then e == a.update.value
    else if DependenciesFail(o, a) then e == a.dependencies.value
    else if DivertFails(o, a) then e == a.divert.value
    else if CommandsStop(o, a) then CommandsReturn(o, a, e)
    else if ResourcesFail(o, a) then ResourcesReturn(o, a, e)
    else if a.delete.Some? then e == a.delete.value
    else CommandsReturn(o, a, e)
  }

  class Command {
    /** The persisted status; `None` when there is no record. */
    var record: Option<Status>
    var effects: seq<Effect>

    constructor (record: Option<Status>)
      ensures this.record == record && effects == []
    {
      this.record, effects := record, [];
    }

    method SetErrorStatus(update: Option<Err>) returns (err: Option<Err>)
      modifies this
      ensures err == update
      ensures record == if update.None? then Some(Error) else old(record)
      ensures effects == if update.None? then old(effects) + [WroteError] else old(effects)
    {
      if update.None? {
        record, effects := Some(Error), effects + [WroteError];
      }
      err := update;
    }

    /** Volumes, helm releases, resources by label. */
    method DestroyK8sResources(o: Flags, a: Answers) returns (err: Option<Err>)
      modifies this`effects
      ensures err.Some? <==> ResourcesFail(o, a)
      ensures err.Some? ==> ResourcesReturn(o, a, err.value)
      ensures err.None? ==> effects == old(effects) + [DestroyedVolumes, DestroyedByLabel]
      ensures err.Some? ==> effects == old(effects) || effects == old(effects) + [DestroyedVolumes]
    {
      if a.volumes.Some? {
        return a.volumes;
      }
      effects := effects + [DestroyedVolumes];
      var helm, _ := DestroyHelmReleases(a.secrets, a.helm, a.listing, o.force);
      if helm.Some? && !o.force {
        return helm;
      }
      if a.labels.Some? {
        return a.labels;
      }
      effects := effects + [DestroyedByLabel];
      err := None;
    }

    /** The destroyer of the commands: the interrupt, or what the commands report. */
    method DestroyCommands(o: Flags, a: Answers) returns (err: Option<Err>)
      requires a.interrupt.Some? ==> a.interrupt.value.interrupt
      requires a.commands != []
      ensures err.None? <==> a.interrupt.None? && CommandsPass(a)
      ensures err.Some? ==> CommandsReturn(o, a, err.value)
      ensures (err.Some? && (err.value.interrupt || !o.force)) <==> CommandsStop(o, a)
    {
      if a.interrupt.Some? {
        return a.interrupt;
      }
      var attempted;
      err, attempted := RunDestroy(a.setup, a.commands, o.force);
      if err.Some? && a.setup.None? && o.force {
        ghost var i :| LastFailure(a.commands, i, |a.commands|) && a.commands[i] == err;
        forall j | LastFailure(a.commands, j, |a.commands|) ensures j == i {
        }
      }
    }

    method Destroy(o: Flags, a: Answers) returns (err: Option<Err>)
      requires effects == [] && (a.interrupt.Some? ==> a.interrupt.value.interrupt)
      modifies this
      // the record goes away exactly when everything up to its deletion succeeded or was forced
      ensures a.write.Some? ==> record == old(record) && effects == [] && err == a.write
      ensures a.write.None? ==> (record.None? <==> ReachesDeletion(o, a) && a.delete.None?)
      ensures a.write.None? && record.None? ==> effects == [WroteDestroying, DestroyedVolumes, DestroyedByLabel, DeletedRecord]
      ensures forall i :: 0 <= i < |effects| && effects[i].DeletedRecord? ==>
        i == |effects| - 1 && DestroyedVolumes in effects && DestroyedByLabel in effects
      // nil only if all of it, commands included, went well
      ensures err.None? <==> ReachesDeletion(o, a) && a.delete.None? && (a.commands == [] || CommandsPass(a))
      // a forced failure of the commands is still reported after the clean-up
      ensures ReachesDeletion(o, a) && a.delete.None? && err.Some? ==>
        o.force && a.commands != [] && !CommandsPass(a) && !err.value.interrupt
      // what is left in the record otherwise
      ensures a.write.None? ==> (record == Some(Error) <==> FailsReported(o, a) && a.update.None?)
      ensures a.write.None? ==> (record == Some(Destroying) <==>
        (FailsReported(o, a) && a.update.Some?)
        || (!DependenciesFail(o, a) && DivertFails(o, a))
        || (ReachesDeletion(o, a) && a.delete.Some?))
      // which failure is returned
      ensures err.Some? ==> Returns(o, a, err.value)
    {
      if a.write.Some? {
        return a.write;
      }
      record, effects := Some(Destroying), [WroteDestroying];
      if o.withDependencies && a.dependencies.Some? {
        err := SetErrorStatus(a.update);
        return if err.Some? then err else a.dependencies;
      }
      if o.hasDivert && a.divert.Some? {
        return a.divert;
      }
      var commandErr := None;
      if a.commands != [] {
        err := DestroyCommands(o, a);
        if err.Some? {
          if err.value.interrupt || !o.force {
            var status := SetErrorStatus(a.update);
            return if status.Some? then status else err;
          }
          commandErr := err;
        }
      }
      err := DestroyK8sResources(o, a);
      if err.Some? {
        var status := SetErrorStatus(a.update);
        return if status.Some? then status else err;
      }
      if a.delete.Some? {
        return a.delete;
      }
      record, effects := None, effects + [DeletedRecord];
      err := commandErr;
    }
  }
}
