/** The coordinator itself: the machine's settings changed call by call, with the record of
    what was there before filled in as the calls succeed. */
module OptimizationCoordinator {
  import opened Options
  import opened Guids
  import M = OptimizationModel
  import P = OptimizationProofs

  class Machine {
    var gameBar: M.GameBar
    var scheme: ValidGuid
    var endpoints: map<string, M.Fx>
    var record: Option<M.Transaction>

    ghost function Settings(): M.Settings
      reads this
    {
      M.Settings(gameBar, scheme, endpoints, record)
    }

    method SetGameMode(enable: bool, c: M.GameCalls) returns (previous: Option<bool>)
      modifies this`gameBar
      ensures (gameBar, previous) == M.SetGameMode(old(gameBar), enable, c)
    {
      var state := if c.readOk then gameBar.Observed() else true;
      if !c.createOk {
        return None;
      }
      gameBar := M.GameBar(gameBar.Allow(), gameBar.Enabled());
      var val := if enable then 1 else 0;
      if c.writeAllowOk {
        gameBar := gameBar.(allow := Some(val));
      }
      if c.writeEnabledOk {
        gameBar := gameBar.(enabled := Some(val));
      }
      if !c.writeAllowOk && !c.writeEnabledOk {
        return None;
      }
      return Some(state);
    }

    method ApplyPower(c: M.PowerCalls) returns (previous: Option<ValidGuid>)
      modifies this`scheme
      ensures (scheme, previous) == M.ApplyPower(old(scheme), c)
    {
      if !c.readOk {
        return None;
      }
      var original := scheme;
      if c.laptop {
        return Some(original);
      }
      if c.ultimateOk {
        scheme := M.ULTIMATE;
      } else {
        if !c.highOk {
          return None;
        }
        scheme := M.HIGH;
      }
      return Some(original);
    }

    /** One endpoint of the loop: remember the raw value, then write 1. */
    method DisableEndpoint(id: string, calls: M.EndpointCalls) returns (saved: Option<Option<nat>>)
      requires id in endpoints
      modifies this`endpoints
      ensures endpoints == old(endpoints)[id := M.DisableOne(old(endpoints)[id], calls).0]
      ensures saved == M.DisableOne(old(endpoints)[id], calls).1
    {
      var fx := endpoints[id];
      if !calls.openOk {
        assert endpoints == endpoints[id := fx];
        return None;
      }
      endpoints := endpoints[id := M.FxKey(fx.Raw())];
      var original := if calls.queryOk then fx.Raw() else None;
      if calls.writeOk {
        endpoints := endpoints[id := M.FxKey(Some(1))];
        return Some(original);
      }
      return None;
    }

    /** The endpoint loop. After each iteration the settings and the backups are those of the
        endpoints done so far, which is what the rollback theorems speak of. */
    method DisableAudio(order: seq<string>, c: string -> M.EndpointCalls) returns (backups: seq<M.Backup>)
      modifies this`endpoints
      ensures (endpoints, backups) == M.DisableAll(old(endpoints), order, c)
    {
      backups := [];
      for i := 0 to |order|
        invariant (endpoints, backups) == M.DisableAll(old(endpoints), order[..i], c)
      {
        var id := order[i];
        ghost var prefix := order[..i + 1];
        assert prefix[..|prefix| - 1] == order[..i] && prefix[|prefix| - 1] == id;
        if id in endpoints {
          var saved := DisableEndpoint(id, c(id));
          if saved.Some? {
            backups := backups + [M.Backup(id, saved.value)];
          }
        }
      }
      assert order[..|order|] == order;
    }

    method RestoreAudio(backups: seq<M.Backup>, c: string -> M.RestoreCalls)
      modifies this`endpoints
      ensures endpoints == M.RestoreAll(old(endpoints), backups, c)
    {
      for i := 0 to |backups|
        invariant endpoints == M.RestoreAll(old(endpoints), backups[..i], c)
      {
        var backup := backups[i];
        var prefix := backups[..i + 1];
        assert prefix[..|prefix| - 1] == backups[..i] && prefix[|prefix| - 1] == backup;
        var id := backup.endpoint;
        if id in endpoints {
          var fx := endpoints[id];
          if c(id).openOk && fx.FxKey? && c(id).writeOk {
            endpoints := endpoints[id := M.FxKey(backup.original)];
          } else {
            assert endpoints == endpoints[id := fx];
          }
        }
      }
      assert backups[..|backups|] == backups;
    }

    /** Back to a saved scheme; a text that does not parse restores nothing. */
    method RestorePower(saved: Option<string>, ok: bool) returns (restored: bool)
      modifies this`scheme
      ensures scheme == M.RestorePower(old(scheme), saved, ok)
      ensures restored <==> saved.Some? && Parse(saved.value).Some? && ok
    {
      restored := false;
      if saved.Some? {
        var guid := StringToGuid(saved.value);
        if guid.Some? && ok {
          scheme := guid.value;
          restored := true;
        }
      }
    }

    method Rollback(tx: M.Transaction, c: M.RollbackCalls)
      modifies this
      ensures Settings() == M.Rollback(old(Settings()), tx, c)
    {
      if tx.audio != [] {
        RestoreAudio(tx.audio, c.endpoint);
      }
      var _ := RestorePower(tx.powerScheme, c.powerOk);
      if tx.gameMode.Some? {
        var _ := SetGameMode(tx.gameMode.value, c.game);
      }
      if record.Some? && c.removeOk {
        record := None;
      }
    }

    method ApplyOptimizations(order: seq<string>, c: M.ApplyCalls) returns (result: Option<M.Transaction>)
      modifies this
      ensures (Settings(), result) == M.Apply(old(Settings()), order, c)
      ensures result.None? ==> P.SameObservables(Settings(), old(Settings()))
    {
      assert order[..|order|] == order;
      var tx := M.EMPTY;
      var mode := SetGameMode(true, c.game);
      if mode.None? {
        var noCalls := M.RollbackCalls(c.game, true, (_: string) => M.RestoreCalls(true, true), c.removeOk);
        Rollback(tx, noCalls);
        P.FailedApplyChangesNothing(old(Settings()), order, c);
        return None;
      }
      tx := tx.(gameMode := mode);
      var previous := ApplyPower(c.power);
      if previous.Some? {
        tx := tx.(powerScheme := Some(Print(previous.value)));
      }
      var backups := DisableAudio(order, c.endpoint);
      tx := tx.(audio := backups, isApplied := true);
      if c.recordOk {
        record := Some(tx);
      }
      return Some(tx);
    }

    method RecoverOrphanedTransaction(c: M.RollbackCalls) returns (restored: bool)
      modifies this
      ensures (Settings(), restored) == M.Recover(old(Settings()), c)
    {
      if record.None? {
        return false;
      }
      Rollback(record.value, c);
      return true;
    }
  }
}
