/** The commands of a run, carried out on the database object. */
module ConfigCommands {
  import opened Common
  import opened ConfigDb
  import opened InitPackages
  import ConfigRuns
  import ConfigDatabase

  /** Carrying a command out leaves the database as the runs have it, whatever order rows are listed in. */
  method Execute(d: ConfigDatabase.Database, listing: seq<nat>, c: ConfigRuns.Command)
    requires Valid(d.State()) && forall i :: i in listing <==> i in d.rows
    modifies d
    ensures d.State() == ConfigRuns.Exec(old(d.State()), c) && Valid(d.State())
  {
    ConfigRuns.ExecKeeps(d.State(), c);
    match c
    case AddConfig(o, path, name, id) =>
      var _ := d.AddConfig(o, path, name, id);
    case SetFlags(ids, f) =>
      var _ := d.SetFlags(ids, f);
    case MoveConfig(id, path) =>
      if id in d.rows {
        var _ := d.MoveConfig(id, path);
      }
    case RenameConfig(id, name) =>
      RenameRow(d, listing, id, name);
    case RemoveConfigs(ids) =>
      if ConfigRuns.Selectable(d.State(), ids) {
        var _ := d.RemoveConfigs(ids);
      }
    case InitConfigs(ids, pkgs, luck) =>
      if ConfigRuns.Selectable(d.State(), ids) && |luck| == |ids| {
        var _, _ := d.InitConfigs(Load(d.State(), ids), pkgs, luck);
      }
    case DeinitConfigs(ids, pkgs, luck) =>
      if ConfigRuns.Selectable(d.State(), ids) && |luck| == |ids| {
        var _, _ := d.DeinitConfigs(Load(d.State(), ids), pkgs, luck);
      }
  }

  /** Rename the configuration with this id, the new name given as the last of the names. */
  method RenameRow(d: ConfigDatabase.Database, listing: seq<nat>, id: nat, name: string)
    requires Valid(d.State()) && forall i :: i in listing <==> i in d.rows
    modifies d`rows
    ensures d.State() == ConfigRuns.OrElse(old(d.State()), Rename(old(d.State()), id, name))
  {
    var sel := ConfigDatabase.Selection([name], [], [id], false);
    ghost var left := sel.(names := []);
    assert sel.names[..0] == [];
    if id in d.rows {
      assert ConfigDatabase.SelectedIds(d.rows, listing, left) == [id] by {
        OneId(d.rows, listing, id);
      }
    } else {
      assert id in left.ids;
    }
    var e := d.RenameConfig(listing, None, sel);
  }

  lemma OneId(rows: map<nat, Config>, listing: seq<nat>, id: nat)
    requires id in rows
    ensures ConfigDatabase.SelectedIds(rows, listing, ConfigDatabase.Selection([], [], [id], false)) == [id]
  {
    assert ConfigDatabase.MentionedIds(rows, listing, ConfigDatabase.Selection([], [], [id], false)) == [id];
    ConfigDatabase.WeedOne([], id);
    assert [] + [id] == [id];
  }
}
