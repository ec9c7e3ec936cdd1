/** `okteto deploy` and the record of the environment (cmd/deploy/deploy.go, cmd/deploy/cfghandler.go):
    which status every exit leaves behind. */
module DeployProtocol {
  import opened Options
  import opened Records

  datatype Flags = Flags(
    deploySection: bool,
    compose: bool,
    endpoints: bool,
    divert: bool,
    wait: bool)

  /** What the outside answers, in the order it is asked. */
  datatype Answers = Answers(
    write: Option<Err>,          // writing the Progressing record
    dependencies: Option<Err>,
    build: Option<Err>,
    deployer: Option<Err>,
    commands: Option<Err>,
    manifest: Option<Err>,       // reading the manifest again
    compose: Option<Err>,
    endpoints: Option<Err>,
    divertDriver: Option<Err>,
    divert: Option<Err>,
    check: Option<Err>,          // looking for something deployed
    deployedSomething: bool,
    wait: Option<Err>,
    client: Option<Err>,         // the client of a status update
    update: Option<Err>)         // the status update itself

  /** The stages of `deploy` that run, in order. */
  function Stages(f: Flags, a: Answers): seq<Option<Err>> {
    [a.deployer, a.commands, a.manifest]
    + (if f.compose then [a.compose] else [])
    + (if f.endpoints then [a.endpoints] else [])
    + (if f.divert then [a.divertDriver, a.divert] else [])
  }

  ghost predicate FirstFailure(stages: seq<Option<Err>>, i: int) {
    0 <= i < |stages| && stages[i].Some? && forall j :: 0 <= j < i ==> stages[j].None?
  }

  ghost predicate StagesPass(f: Flags, a: Answers) {
    forall i :: 0 <= i < |Stages(f, a)| ==> Stages(f, a)[i].None?
  }

  /** Which stages have to pass. */
  lemma StagesPassIff(f: Flags, a: Answers)
    ensures StagesPass(f, a) <==>
      && a.deployer.None? && a.commands.None? && a.manifest.None?
      && (f.compose ==> a.compose.None?) && (f.endpoints ==> a.endpoints.None?)
      && (f.divert ==> a.divertDriver.None? && a.divert.None?)
  {
    var s := Stages(f, a);
    assert s[0] == a.deployer && s[1] == a.commands && s[2] == a.manifest;
    var n := 3;
    if f.compose {
      assert s[n] == a.compose;
      n := n + 1;
    }
    if f.endpoints {
      assert s[n] == a.endpoints;
      n := n + 1;
    }
    assert f.divert ==> s[n] == a.divertDriver && s[n + 1] == a.divert;
  }

  /** `err` is the failure of the first failing stage that applies: deployer, commands, manifest, compose, endpoints,
      divert driver, divert. */
  ghost predicate InOrder(f: Flags, a: Answers, err: Option<Err>) {
    && (a.deployer.Some? ==> err == a.deployer)
    && (a.deployer.None? && a.commands.Some? ==> err == a.commands)
    && (a.deployer.None? && a.commands.None? && a.manifest.Some? ==> err == a.manifest)
    && var main := a.deployer.None? && a.commands.None? && a.manifest.None?;
    && (main && f.compose && a.compose.Some? ==> err == a.compose)
    && var local := main && (f.compose ==> a.compose.None?);
    && (local && f.endpoints && a.endpoints.Some? ==> err == a.endpoints)
    && var rest := local && (f.endpoints ==> a.endpoints.None?);
    && (rest && f.divert && a.divertDriver.Some? ==> err == a.divertDriver)
    && (rest && f.divert && a.divertDriver.None? && a.divert.Some? ==> err == a.divert)
    && (rest && !f.divert ==> err.None?)
    && (rest && a.divertDriver.None? && a.divert.None? ==> err.None?)
  }

  /** The first stage that fails was interrupted. */
  ghost predicate Interrupted(f: Flags, a: Answers) {
    exists i :: FirstFailure(Stages(f, a), i) && Stages(f, a)[i].value.interrupt
  }

  predicate BeforeStages(f: Flags, a: Answers) {
    a.write.None? && a.dependencies.None? && f.deploySection && a.build.None?
  }

  predicate WaitFails(f: Flags, a: Answers) {
    a.deployedSomething && f.wait && a.wait.Some?
  }

  predicate UpdateWorks(a: Answers) {
    a.client.None? && a.update.None?
  }

  /** Everything that was asked for went well. */
  ghost predicate AllWell(f: Flags, a: Answers) {
    BeforeStages(f, a) && StagesPass(f, a) && a.check.None? && !WaitFails(f, a)
  }

  /** A stage whose failure belongs in the record failed. */
  ghost predicate FailsReported(f: Flags, a: Answers) {
    && a.write.None?
    && (a.dependencies.Some?
        || (f.deploySection && a.build.Some?)
        || (BeforeStages(f, a) && !StagesPass(f, a) && !Interrupted(f, a))
        || (BeforeStages(f, a) && StagesPass(f, a) && a.check.None? && WaitFails(f, a)))
  }

  /** The command ends without an error: deployed, nothing to deploy, or interrupted. */
  ghost predicate Silent(f: Flags, a: Answers) {
    || (AllWell(f, a) && UpdateWorks(a))
    || (a.dependencies.None? && !f.deploySection)
    || (BeforeStages(f, a) && Interrupted(f, a))
  }

  class Command {
    /** The persisted status; `None` when there is no record. */
    var record: Option<Status>
    /** The status of the data that the next update writes. */
    var status: Status

    constructor (record: Option<Status>)
      ensures this.record == record && status == Progressing
    {
      this.record, status := record, Progressing;
    }

    /** Any error turns the status into Error; the error is returned unless the update itself fails. */
    method UpdateConfigMap(a: Answers, main: Option<Err>) returns (err: Option<Err>)
      modifies this
      ensures err == if a.client.Some? then a.client else if a.update.Some? then a.update else main
      ensures record == if UpdateWorks(a) then Some(if main.Some? then Error else old(status)) else old(record)
    {
      if a.client.Some? {
        return a.client;
      }
      if main.Some? {
        status := Error;
      }
      if a.update.Some? {
        return a.update;
      }
      record := Some(status);
      err := main;
    }

    /** The first failing stage, in order. */
    method Deploy(f: Flags, a: Answers) returns (err: Option<Err>)
      ensures InOrder(f, a, err)
      ensures err.None? <==> StagesPass(f, a)
      ensures err.Some? ==> exists i :: FirstFailure(Stages(f, a), i) && Stages(f, a)[i] == err
      ensures err.Some? ==> (err.value.interrupt <==> Interrupted(f, a))
    {
      ghost var s := Stages(f, a);
      err := RunStages(f, a);
      if err.Some? {
        ghost var i :| FirstFailure(s, i) && s[i] == err;
        forall j | FirstFailure(s, j) ensures j == i {
        }
      }
    }

    method RunStages(f: Flags, a: Answers) returns (err: Option<Err>)
      ensures InOrder(f, a, err)
      ensures err.None? <==> StagesPass(f, a)
      ensures err.Some? ==> exists i :: FirstFailure(Stages(f, a), i) && Stages(f, a)[i] == err
    {
      ghost var s := Stages(f, a);
      assert s[0] == a.deployer && s[1] == a.commands && s[2] == a.manifest;
      if a.deployer.Some? {
        assert FirstFailure(s, 0);
        return a.deployer;
      }
      if a.commands.Some? {
        assert FirstFailure(s, 1);
        return a.commands;
      }
      if a.manifest.Some? {
        assert FirstFailure(s, 2);
        return a.manifest;
      }
      ghost var n := 3;
      if f.compose {
        assert s[n] == a.compose;
        if a.compose.Some? {
          assert FirstFailure(s, n);
          return a.compose;
        }
        n := n + 1;
      }
      if f.endpoints {
        assert s[n] == a.endpoints;
        if a.endpoints.Some? {
          assert FirstFailure(s, n);
          return a.endpoints;
        }
        n := n + 1;
      }
      if f.divert {
        assert s[n] == a.divertDriver && s[n + 1] == a.divert;
        if a.divertDriver.Some? {
          assert FirstFailure(s, n);
          return a.divertDriver;
        }
        if a.divert.Some? {
          assert FirstFailure(s, n + 1);
          return a.divert;
        }
      }
      err := None;
    }

    method Run(f: Flags, a: Answers) returns (err: Option<Err>)
      requires status == Progressing
      modifies this
      ensures a.write.Some? ==> record == old(record) && err == a.write
      // Deployed means that everything went well, and the command then says so
      ensures a.write.None? ==> (record == Some(Deployed) <==> AllWell(f, a) && UpdateWorks(a))
      ensures a.write.None? && record == Some(Deployed) ==> err.None?
      ensures a.write.None? ==> (record == Some(Deployed) <==>
        && a.dependencies.None? && f.deploySection && a.build.None?
        && a.deployer.None? && a.commands.None? && a.manifest.None?
        && (f.compose ==> a.compose.None?) && (f.endpoints ==> a.endpoints.None?)
        && (f.divert ==> a.divertDriver.None? && a.divert.None?)
        && a.check.None? && (a.deployedSomething && f.wait ==> a.wait.None?)
        && a.client.None? && a.update.None?)
      // a failed stage is reported
      ensures a.write.None? ==> (record == Some(Error) <==> FailsReported(f, a) && UpdateWorks(a))
      // the exits that leave the environment in progress
      ensures a.write.None? ==> (record == Some(Progressing) <==>
        || (a.dependencies.None? && !f.deploySection)
        || (BeforeStages(f, a) && Interrupted(f, a))
        || (BeforeStages(f, a) && StagesPass(f, a) && a.check.Some?)
        || ((AllWell(f, a) || FailsReported(f, a)) && !UpdateWorks(a)))
      ensures a.write.None? ==> record.Some? && !record.value.Destroying?
      // the command is silent only when deployed, with nothing to deploy, or interrupted
      ensures err.None? <==> a.write.None? && Silent(f, a)
      // and otherwise it reports the stage, or the update that could not record it
      ensures a.write.None? && (AllWell(f, a) || FailsReported(f, a)) && !UpdateWorks(a) ==>
        err == if a.client.Some? then a.client else a.update
      ensures a.write.None? && FailsReported(f, a) && UpdateWorks(a) ==>
        if a.dependencies.Some? then err == a.dependencies
        else if a.build.Some? then err == a.build
        else if StagesPass(f, a) then err == a.wait
        else InOrder(f, a, err)
      // an error of the stages is silent exactly if it is an interrupt
      ensures forall e :: BeforeStages(f, a) && InOrder(f, a, Some(e)) ==>
        (if e.interrupt then err.None? && record == Some(Progressing)
         else if UpdateWorks(a) then err == Some(e) && record == Some(Error)
         else err.Some? && record == Some(Progressing))
      ensures BeforeStages(f, a) && StagesPass(f, a) && a.check.Some? ==> err == a.check
    {
      StagesPassIff(f, a);
      if a.write.Some? {
        return a.write;
      }
      record := Some(Progressing);
      if a.dependencies.Some? {
        err := UpdateConfigMap(a, a.dependencies);
        return if err.Some? then err else a.dependencies;
      }
      if !f.deploySection {
        return None;
      }
      if a.build.Some? {
        err := UpdateConfigMap(a, a.build);
        return if err.Some? then err else a.build;
      }
      err := Deploy(f, a);
      if err.Some? {
        if err.value.interrupt {
          return None;
        }
        status := Error;
      } else {
        if a.check.Some? {
          return a.check;
        }
        if a.deployedSomething && f.wait && a.wait.Some? {
          err := UpdateConfigMap(a, a.wait);
          return if err.Some? then err else a.wait;
        }
        status := Deployed;
      }
      err := UpdateConfigMap(a, err);
    }
  }
}
