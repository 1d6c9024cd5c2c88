/**
 * The periodic role reconciliation tick (`read_role` in bot/events/read_role.py).
 *
 * The gateway snapshot is a sequence of guilds, each a sequence of members with the ids of
 * their roles. The `roles` configuration table is the sequence of its items: the `not_set`
 * flag and one entry per role id, each with an integer (TOML booleans are Python ints).
 */
module RoleSync {
  import opened Wrappers
  import opened IdentityStore

  type RoleId = int

  datatype ConfigKey = NotSetKey | RoleKey(id: RoleId)

  type RolesConfig = seq<(ConfigKey, int)>

  datatype Member = Member(id: DiscordId, roles: seq<RoleId>)

  type Guild = seq<Member>

  /** How a tick ends: `config["roles"]["not_set"]` is missing (KeyError), is truthy, or the tick runs. */
  datatype TickOutcome = MissingNotSet | Disabled | Reconciled

  /** `config["roles"]["not_set"]`, if the key is there. */
  function NotSetFlag(config: RolesConfig): Option<int> {
    if config == [] then None
    else if config[0].0 == NotSetKey then Some(config[0].1)
    else NotSetFlag(config[1..])
  }

  function TickGuard(config: RolesConfig): TickOutcome {
    match NotSetFlag(config)
    case None => MissingNotSet
    case Some(flag) => if flag != 0 then Disabled else Reconciled
  }

  /** `roles_list`: every configured (role id, level) pair, without the `not_set` item. */
  function RoleList(config: RolesConfig): (rl: seq<(RoleId, int)>)
    ensures |rl| <= |config|
    ensures forall p :: p in rl ==> (RoleKey(p.0), p.1) in config
    ensures forall i :: 0 <= i < |config| && config[i].0.RoleKey? ==> (config[i].0.id, config[i].1) in rl
  {
    if config == [] then []
    else
      var last := config[|config| - 1];
      var rest := RoleList(config[..|config| - 1]);
      assert forall i :: 0 <= i < |config| - 1 ==> config[..|config| - 1][i] == config[i];
      rest + if last.0.RoleKey? then [(last.0.id, last.1)] else []
  }

  // ---------------------------------------------------------------------------
  // The level of one member

  /**
   * `m` is the member's level: at least 0 and at least every configured level of a role the
   * member holds, and, unless it is 0, one of those levels.
   */
  ghost predicate IsMaxLevel(m: int, roles: seq<RoleId>, rl: seq<(RoleId, int)>) {
    && m >= 0
    && (forall b :: 0 <= b < |rl| && rl[b].0 in roles ==> rl[b].1 <= m)
    && (m == 0 || exists b :: 0 <= b < |rl| && rl[b].0 in roles && rl[b].1 == m)
  }

  /** The level computed for a member holding `roles`. */
  function MemberLevel(roles: seq<RoleId>, rl: seq<(RoleId, int)>): int {
    if rl == [] then 0
    else
      var p := MemberLevel(roles, rl[..|rl| - 1]);
      var last := rl[|rl| - 1];
      if last.0 in roles && last.1 > p then last.1 else p
  }

  lemma {:induction false} MemberLevelIsMax(roles: seq<RoleId>, rl: seq<(RoleId, int)>)
    ensures IsMaxLevel(MemberLevel(roles, rl), roles, rl)
  {
    if rl != [] {
      var q := rl[..|rl| - 1];
      MemberLevelIsMax(roles, q);
      var p := MemberLevel(roles, q);
      forall b | 0 <= b < |rl| - 1
        ensures rl[b] == q[b]
      {
      }
      if p != 0 {
        var b :| 0 <= b < |q| && q[b].0 in roles && q[b].1 == p;
        assert rl[b] == q[b];
      }
    }
  }

  lemma MaxLevelUnique(m1: int, m2: int, roles: seq<RoleId>, rl: seq<(RoleId, int)>)
    requires IsMaxLevel(m1, roles, rl) && IsMaxLevel(m2, roles, rl)
    ensures m1 == m2
  {
  }

  /** A configured level below 0 is never the member's level, and a member without configured roles gets 0. */
  lemma MemberLevelBounds(roles: seq<RoleId>, rl: seq<(RoleId, int)>)
    ensures MemberLevel(roles, rl) >= 0
    ensures (forall b :: 0 <= b < |rl| ==> rl[b].0 !in roles) ==> MemberLevel(roles, rl) == 0
    ensures forall b :: 0 <= b < |rl| && rl[b].0 in roles ==> rl[b].1 <= MemberLevel(roles, rl)
  {
    MemberLevelIsMax(roles, rl);
  }

  /** The two inner loops of the tick: the running maximum over held roles and configured pairs. */
  method MaxLevel(roles: seq<RoleId>, rl: seq<(RoleId, int)>) returns (m: int)
    ensures IsMaxLevel(m, roles, rl)
    ensures m == MemberLevel(roles, rl)
  {
    m := 0;
    var i := 0;
    while i < |roles|
      invariant 0 <= i <= |roles|
      invariant m >= 0
      invariant forall a, b :: 0 <= a < i && 0 <= b < |rl| && rl[b].0 == roles[a] ==> rl[b].1 <= m
      invariant m == 0 || exists b :: 0 <= b < |rl| && rl[b].0 in roles && rl[b].1 == m
    {
      var j := 0;
      while j < |rl|
        invariant 0 <= j <= |rl|
        invariant m >= 0
        invariant forall a, b :: 0 <= a < i && 0 <= b < |rl| && rl[b].0 == roles[a] ==> rl[b].1 <= m
        invariant forall b :: 0 <= b < j && rl[b].0 == roles[i] ==> rl[b].1 <= m
        invariant m == 0 || exists b :: 0 <= b < |rl| && rl[b].0 in roles && rl[b].1 == m
      {
        var (roleId, level) := rl[j];
        if roles[i] == roleId && level > m {
          m := level;
        }
        j := j + 1;
      }
      i := i + 1;
    }
    forall b | 0 <= b < |rl| && rl[b].0 in roles
      ensures rl[b].1 <= m
    {
      var a :| 0 <= a < |roles| && roles[a] == rl[b].0;
    }
    MemberLevelIsMax(roles, rl);
    MaxLevelUnique(m, MemberLevel(roles, rl), roles, rl);
  }

  // ---------------------------------------------------------------------------
  // The writes of one tick

  /** Every member occurrence, guild after guild. */
  function Occurrences(guilds: seq<Guild>): seq<Member> {
    if guilds == [] then [] else Occurrences(guilds[..|guilds| - 1]) + guilds[|guilds| - 1]
  }

  function WriteFor(m: Member, rl: seq<(RoleId, int)>): Write {
    Write(m.id, None, Some(MemberLevel(m.roles, rl)))
  }

  /** The upserts a tick issues for `members`, one per occurrence, in order. */
  function MemberWrites(members: seq<Member>, rl: seq<(RoleId, int)>): seq<Write> {
    seq(|members|, k requires 0 <= k < |members| => WriteFor(members[k], rl))
  }

  /** The store a reconciling tick leaves behind, from the store `t` it started with. */
  ghost function TickTable(t: map<DiscordId, Entry>, guilds: seq<Guild>, rl: seq<(RoleId, int)>): map<DiscordId, Entry> {
    ApplyAll(t, MemberWrites(Occurrences(guilds), rl))
  }

  /**
   * `read_role`: unless the guard stops it, one add_or_update_member(member.id, None, level)
   * per member occurrence, in guild order.
   */
  method ReadRole(db: DBManager, config: RolesConfig, guilds: seq<Guild>) returns (outcome: TickOutcome, ghost issued: seq<Write>)
    requires db.Valid()
    modifies db
    ensures db.Valid()
    ensures outcome == TickGuard(config)
    ensures outcome != Reconciled ==> issued == [] && db.rows == old(db.rows)
    ensures outcome == Reconciled ==> issued == MemberWrites(Occurrences(guilds), RoleList(config))
    ensures db.Contents() == ApplyAll(old(db.Contents()), issued)
    ensures db.writes == old(db.writes) + issued
  {
    var flag := NotSetFlag(config);
    if flag.None? {
      return MissingNotSet, [];
    }
    if flag.value != 0 {
      return Disabled, [];
    }
    var rl := RoleList(config);
    ghost var t0 := db.Contents();
    ghost var w0 := db.writes;
    outcome, issued := Reconciled, [];
    var g := 0;
    while g < |guilds|
      invariant 0 <= g <= |guilds|
      invariant db.Valid()
      invariant issued == MemberWrites(Occurrences(guilds[..g]), rl)
      invariant db.Contents() == ApplyAll(t0, issued)
      invariant db.writes == w0 + issued
    {
      var members := guilds[g];
      var i := 0;
      while i < |members|
        invariant 0 <= i <= |members|
        invariant db.Valid()
        invariant issued == MemberWrites(Occurrences(guilds[..g]) + members[..i], rl)
        invariant db.Contents() == ApplyAll(t0, issued)
        invariant db.writes == w0 + issued
      {
        var member := members[i];
        var level := MaxLevel(member.roles, rl);
        db.AddOrUpdateMember(member.id, None, Some(level));
        WritesSnoc(Occurrences(guilds[..g]), members, i, rl);
        ApplySnoc(t0, issued, WriteFor(member, rl));
        issued := issued + [WriteFor(member, rl)];
        i := i + 1;
      }
      OccurrencesSnoc(guilds, g);
      g := g + 1;
    }
    assert guilds[..|guilds|] == guilds;
  }

  lemma WritesSnoc(seen: seq<Member>, members: seq<Member>, i: int, rl: seq<(RoleId, int)>)
    requires 0 <= i < |members|
    ensures MemberWrites(seen + members[..i + 1], rl) == MemberWrites(seen + members[..i], rl) + [WriteFor(members[i], rl)]
  {
    assert seen + members[..i + 1] == (seen + members[..i]) + [members[i]];
  }

  lemma ApplySnoc(t: map<DiscordId, Entry>, ws: seq<Write>, w: Write)
    ensures ApplyAll(t, ws + [w]) == Upsert(ApplyAll(t, ws), w)
  {
    assert (ws + [w])[..|ws|] == ws;
  }

  lemma OccurrencesSnoc(guilds: seq<Guild>, g: int)
    requires 0 <= g < |guilds|
    ensures Occurrences(guilds[..g + 1]) == Occurrences(guilds[..g]) + guilds[g][..|guilds[g]|]
  {
    assert guilds[..g + 1][..g] == guilds[..g];
    assert guilds[g][..|guilds[g]|] == guilds[g];
  }

  // ---------------------------------------------------------------------------
  // What a tick does to the store

  lemma {:induction false} OccurrencesAt(guilds: seq<Guild>, id: DiscordId)
    ensures (exists k :: 0 <= k < |Occurrences(guilds)| && Occurrences(guilds)[k].id == id) <==>
            (exists g, i :: 0 <= g < |guilds| && 0 <= i < |guilds[g]| && guilds[g][i].id == id)
  {
    if guilds != [] {
      var p := guilds[..|guilds| - 1];
      var last := guilds[|guilds| - 1];
      OccurrencesAt(p, id);
      var occ := Occurrences(guilds);
      assert occ == Occurrences(p) + last;
      if exists k :: 0 <= k < |occ| && occ[k].id == id {
        var k :| 0 <= k < |occ| && occ[k].id == id;
        if k < |Occurrences(p)| {
          assert Occurrences(p)[k].id == id;
          var g, i :| 0 <= g < |p| && 0 <= i < |p[g]| && p[g][i].id == id;
          assert guilds[g] == p[g];
        } else {
          assert last[k - |Occurrences(p)|].id == id;
        }
      }
      if exists g, i :: 0 <= g < |guilds| && 0 <= i < |guilds[g]| && guilds[g][i].id == id {
        var g, i :| 0 <= g < |guilds| && 0 <= i < |guilds[g]| && guilds[g][i].id == id;
        if g < |p| {
          assert p[g] == guilds[g];
          var k :| 0 <= k < |Occurrences(p)| && Occurrences(p)[k].id == id;
          assert occ[k] == Occurrences(p)[k];
        } else {
          assert occ[|Occurrences(p)| + i] == last[i];
        }
      }
    }
  }

  lemma {:induction false} NoCkeyWritten(ws: seq<Write>, id: DiscordId)
    requires forall k :: 0 <= k < |ws| ==> ws[k].ckey.None?
    ensures LastCkey(ws, id).None?
  {
    if ws != [] {
      NoCkeyWritten(ws[..|ws| - 1], id);
    }
  }

  lemma {:induction false} LastLevelAt(ws: seq<Write>, k: int, id: DiscordId)
    requires 0 <= k < |ws| && ws[k].id == id && ws[k].roleLevel.Some?
    requires forall j :: k < j < |ws| ==> ws[j].id != id
    ensures LastLevel(ws, id) == ws[k].roleLevel
  {
    if k < |ws| - 1 {
      var p := ws[..|ws| - 1];
      assert p[k] == ws[k];
      LastLevelAt(p, k, id);
    }
  }

  /** A tick never changes a stored ckey, and a row it creates has a NULL ckey. */
  lemma TickKeepsCkeys(t: map<DiscordId, Entry>, guilds: seq<Guild>, rl: seq<(RoleId, int)>, id: DiscordId)
    requires id in TickTable(t, guilds, rl)
    ensures id in t ==> TickTable(t, guilds, rl)[id].ckey == t[id].ckey
    ensures id !in t ==> TickTable(t, guilds, rl)[id].ckey.None?
  {
    var ws := MemberWrites(Occurrences(guilds), rl);
    ApplyAllAt(t, ws, id);
    NoCkeyWritten(ws, id);
  }

  /**
   * For a member seen in the snapshot, the stored level is the one computed from its last
   * occurrence in guild order, and the row is present afterwards.
   */
  lemma LastOccurrenceWins(t: map<DiscordId, Entry>, guilds: seq<Guild>, rl: seq<(RoleId, int)>, k: int)
    requires 0 <= k < |Occurrences(guilds)|
    requires forall j :: k < j < |Occurrences(guilds)| ==> Occurrences(guilds)[j].id != Occurrences(guilds)[k].id
    ensures var m := Occurrences(guilds)[k];
      m.id in TickTable(t, guilds, rl) && TickTable(t, guilds, rl)[m.id].roleLevel == Some(MemberLevel(m.roles, rl))
  {
    var occ := Occurrences(guilds);
    var ws := MemberWrites(occ, rl);
    var id := occ[k].id;
    ApplyAllAt(t, ws, id);
    LastLevelAt(ws, k, id);
  }

  /** A member absent from every guild keeps its row, or its absence, exactly as it was. */
  lemma TickLeavesOthers(t: map<DiscordId, Entry>, guilds: seq<Guild>, rl: seq<(RoleId, int)>, id: DiscordId)
    requires forall g, i :: 0 <= g < |guilds| && 0 <= i < |guilds[g]| ==> guilds[g][i].id != id
    ensures id in TickTable(t, guilds, rl) <==> id in t
    ensures id in t ==> TickTable(t, guilds, rl)[id] == t[id]
  {
    var ws := MemberWrites(Occurrences(guilds), rl);
    OccurrencesAt(guilds, id);
    ApplyAllAt(t, ws, id);
    assert !Mentions(ws, id);
  }

  /** Running the tick twice on the same snapshot leaves the store as running it once. */
  lemma TickIdempotent(t: map<DiscordId, Entry>, guilds: seq<Guild>, rl: seq<(RoleId, int)>)
    ensures TickTable(TickTable(t, guilds, rl), guilds, rl) == TickTable(t, guilds, rl)
  {
    ApplyAllTwice(t, MemberWrites(Occurrences(guilds), rl));
  }
}
