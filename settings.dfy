/** The player's configuration (agent.h:117-124): the defaults it prepends to its
    arguments and the checks its constructor applies to the name and the role. */
module PlayerSettings {
  import opened Wrappers
  import opened Pieces
  import opened Config

  /** The agent constructor reads `"name=unknown role=unknown " + args`; the player
      constructor passes `"name=random role=unknown " + args` to it. */
  const AgentDefaults: string := "name=unknown" + " " + "role=unknown" + " "
  const PlayerDefaults: string := "name=random" + " " + "role=unknown" + " "

  function PlayerArgs(args: string): string {
    AgentDefaults + PlayerDefaults + args
  }

  const DefaultTokens: seq<string> := ["name=unknown", "role=unknown", "name=random", "role=unknown"]

  lemma DefaultWords()
    ensures IsWord("name=unknown") && IsWord("role=unknown") && IsWord("name=random")
  {
  }

  /** Regrouping two runs of two blank-separated words in front of a text. */
  lemma Regroup(a: string, b: string, c: string, d: string, rest: string)
    ensures (a + " " + b + " ") + (c + " " + d + " ") + rest == a + " " + (b + " " + (c + " " + (d + " " + rest)))
  {
    calc {
      (a + " " + b + " ") + (c + " " + d + " ") + rest;
      (a + " " + b + " ") + (c + " " + d + " " + rest);
      (a + " " + b + " ") + (c + " " + (d + " " + rest));
      a + " " + (b + " " + (c + " " + (d + " " + rest)));
    }
  }

  /** Four words, each followed by a blank, are read as four settings ahead of the rest. */
  lemma FourWords(w1: string, w2: string, w3: string, w4: string, rest: string)
    requires IsWord(w1) && IsWord(w2) && IsWord(w3) && IsWord(w4)
    ensures Tokens(w1 + " " + (w2 + " " + (w3 + " " + (w4 + " " + rest)))) == [w1, w2, w3, w4] + Tokens(rest)
  {
    var r3 := w4 + " " + rest;
    var r2 := w3 + " " + r3;
    var r1 := w2 + " " + r2;
    var t := Tokens(rest);
    WordThenBlank(w4, rest);
    WordThenBlank(w3, r3);
    WordThenBlank(w2, r2);
    WordThenBlank(w1, r1);
    assert [w1] + ([w2] + ([w3] + ([w4] + t))) == [w1, w2, w3, w4] + t;
  }

  /** The defaults are read as four settings ahead of the caller's own. */
  lemma PlayerArgsTokens(args: string)
    ensures Tokens(PlayerArgs(args)) == DefaultTokens + Tokens(args)
  {
    DefaultWords();
    Regroup("name=unknown", "role=unknown", "name=random", "role=unknown", args);
    FourWords("name=unknown", "role=unknown", "name=random", "role=unknown", args);
  }

  /** Two settings, each given twice: the second occurrences win. */
  lemma MetaOfTwoPairsTwice(k1: string, k2: string, v1: string, v2: string, v3: string, v4: string)
    requires '=' !in k1 && '=' !in k2
    ensures MetaOf([k1 + "=" + v1, k2 + "=" + v2, k1 + "=" + v3, k2 + "=" + v4]) == map[k1 := v3, k2 := v4]
  {
    var a, b, c, d := k1 + "=" + v1, k2 + "=" + v2, k1 + "=" + v3, k2 + "=" + v4;
    KeyValueOf(k1, v1);
    KeyValueOf(k2, v2);
    KeyValueOf(k1, v3);
    KeyValueOf(k2, v4);
    assert [a, b, c, d] == [a, b, c] + [d];
    assert [a, b, c] == [a, b] + [c];
    assert [a, b] == [a] + [b];
    assert [a] == [] + [a];
    MetaSnoc([], a);
    MetaSnoc([a], b);
    MetaSnoc([a, b], c);
    MetaSnoc([a, b, c], d);
  }

  lemma DefaultTokensSpelled()
    ensures DefaultTokens == ["name" + "=" + "unknown", "role" + "=" + "unknown", "name" + "=" + "random", "role" + "=" + "unknown"]
  {
    assert "name" + "=" + "unknown" == "name=unknown";
    assert "role" + "=" + "unknown" == "role=unknown";
    assert "name" + "=" + "random" == "name=random";
  }

  lemma DefaultMeta()
    ensures MetaOf(DefaultTokens) == map["name" := "random", "role" := "unknown"]
  {
    DefaultTokensSpelled();
    MetaOfTwoPairsTwice("name", "role", "unknown", "unknown", "random", "unknown");
  }

  /** The map a player is configured with: the prepended defaults name the player
      "random" with role "unknown" unless `args` says otherwise. */
  lemma PlayerMeta(args: string)
    ensures MetaOf(Tokens(PlayerArgs(args))) == map["name" := "random", "role" := "unknown"] + MetaOf(Tokens(args))
    ensures "name" in MetaOf(Tokens(PlayerArgs(args))) && "role" in MetaOf(Tokens(PlayerArgs(args)))
  {
    PlayerArgsTokens(args);
    MetaAppend(DefaultTokens, Tokens(args));
    DefaultMeta();
  }

  /** The characters a player name may not contain. */
  const Forbidden: string := "[]():; "

  predicate NameOk(name: string) {
    forall i :: 0 <= i < |name| ==> name[i] !in Forbidden
  }

  /** The side a role names; Empty (board::empty) for any other role. */
  function RoleSide(role: string): (r: Piece)
    ensures IsSide(r) <==> role == "black" || role == "white"
    ensures r == Black <==> role == "black"
    ensures r == White <==> role == "white"
  {
    if role == "black" then Black else if role == "white" then White else Empty
  }

  /** The checks of the player constructor, in the order it makes them: the name
      first, then the role. */
  function Validate(meta: map<string, string>): (r: Result<Piece, ConfigError>)
    ensures r.Ok? <==> "name" in meta && NameOk(meta["name"]) && "role" in meta && meta["role"] in {"black", "white"}
    ensures r.Ok? ==> IsSide(r.value) && (r.value == Black <==> meta["role"] == "black")
    ensures r.Err? && r.error.InvalidName? <==> "name" in meta && !NameOk(meta["name"])
    ensures r.Err? && r.error.InvalidName? ==> r.error.name == meta["name"]
    ensures r.Err? && r.error.InvalidRole? <==>
              "name" in meta && NameOk(meta["name"]) && "role" in meta && meta["role"] !in {"black", "white"}
    ensures r.Err? && r.error.InvalidRole? ==> r.error.role == meta["role"]
  {
    match Property(meta, "name")
    case Err(e) => Err(e)
    case Ok(name) =>
      if !NameOk(name) then Err(InvalidName(name))
      else match Property(meta, "role")
        case Err(e) => Err(e)
        case Ok(role) =>
          var who := RoleSide(role);
          if who == Empty then Err(InvalidRole(role)) else Ok(who)
  }

  /** Without a role the player is refused: the default role is "unknown". */
  lemma NoRoleRejected(args: string)
    requires args == ""
    ensures Validate(MetaOf(Tokens(PlayerArgs(args)))) == Err(InvalidRole("unknown"))
  {
    assert Tokens(args) == [];
    PlayerMetaOver(args, map[]);
    assert map["name" := "random", "role" := "unknown"] + map[] == map["name" := "random", "role" := "unknown"];
    DefaultNameWithRole(map["name" := "random", "role" := "unknown"], "unknown");
  }

  /** The player's map, given the map of the user's own arguments. */
  lemma PlayerMetaOver(args: string, m: map<string, string>)
    requires MetaOf(Tokens(args)) == m
    ensures MetaOf(Tokens(PlayerArgs(args))) == map["name" := "random", "role" := "unknown"] + m
  {
    PlayerMeta(args);
  }

  lemma RoleOnly(args: string, role: string)
    requires IsWord("role=" + role) && args == "role=" + role
    ensures MetaOf(Tokens(args)) == map["role" := role]
  {
    assert "role=" + role == "role" + "=" + role;
    SingleSetting("role", role);
  }

  lemma NameAndRole(args: string, name: string, role: string)
    requires IsWord("name=" + name) && IsWord("role=" + role) && args == "name=" + name + " role=" + role
    ensures MetaOf(Tokens(args)) == map["name" := name, "role" := role]
  {
    assert "name=" + name == "name" + "=" + name;
    assert "role=" + role == "role" + "=" + role;
    assert args == "name" + "=" + name + " " + "role" + "=" + role;
    TwoSettings("name", name, "role", role);
  }

  /** A role other than "black" or "white" is refused (`role=red`, say). */
  lemma BadRoleRejected(args: string, role: string)
    requires IsWord("role=" + role) && args == "role=" + role
    requires role != "black" && role != "white"
    ensures Validate(MetaOf(Tokens(PlayerArgs(args)))) == Err(InvalidRole(role))
  {
    RoleOnlyPlayerMeta(args, role);
    DefaultNameWithRole(MetaOf(Tokens(PlayerArgs(args))), role);
  }

  lemma RoleOnlyPlayerMeta(args: string, role: string)
    requires IsWord("role=" + role) && args == "role=" + role
    ensures MetaOf(Tokens(PlayerArgs(args))) == map["name" := "random", "role" := role]
  {
    RoleOnly(args, role);
    PlayerMetaOver(args, map["role" := role]);
    RoleOverDefaults(role);
  }

  lemma RoleOverDefaults(role: string)
    ensures map["name" := "random", "role" := "unknown"] + map["role" := role] == map["name" := "random", "role" := role]
  {
  }

  lemma DefaultNameWithRole(m: map<string, string>, role: string)
    requires m == map["name" := "random", "role" := role]
    requires role != "black" && role != "white"
    ensures Validate(m) == Err(InvalidRole(role))
  {
    assert NameOk("random");
  }

  /** A name with a forbidden character (`name=a:b`, say) is refused before the role is
      looked at. */
  lemma BadNameRejected(args: string, name: string, role: string)
    requires IsWord("name=" + name) && IsWord("role=" + role) && args == "name=" + name + " role=" + role
    requires !NameOk(name)
    ensures Validate(MetaOf(Tokens(PlayerArgs(args)))) == Err(InvalidName(name))
  {
    NameAndRole(args, name, role);
    PlayerMetaOver(args, map["name" := name, "role" := role]);
    assert map["name" := "random", "role" := "unknown"] + map["name" := name, "role" := role]
        == map["name" := name, "role" := role];
  }

  /** An acceptable name and a black or white role configure a player of that side. */
  lemma GoodSettingsAccepted(args: string, name: string, role: string)
    requires IsWord("name=" + name) && IsWord("role=" + role) && args == "name=" + name + " role=" + role
    requires NameOk(name) && (role == "black" || role == "white")
    ensures Validate(MetaOf(Tokens(PlayerArgs(args)))) == Ok(RoleSide(role))
  {
    NameAndRole(args, name, role);
    PlayerMetaOver(args, map["name" := name, "role" := role]);
    assert map["name" := "random", "role" := "unknown"] + map["name" := name, "role" := role]
        == map["name" := name, "role" := role];
  }
}
