/** Credential lookup shared by every connector. */
module BaseConnector {
  import opened Wrappers
  import opened Text

  /**
   * The environment variable holding `varName` for an avatar: the avatar id
   * upper-cased with `-` replaced by `_`, then `_`, then `varName`.
   */
  function EnvVarName(avatarId: string, varName: string): (r: string)
    ensures |r| == |avatarId| + 1 + |varName|
    ensures forall i :: 0 <= i < |avatarId| ==>
      r[i] == (if avatarId[i] == '-' then '_' else UpperChar(avatarId[i]))
    ensures r[|avatarId|] == '_' && r[|avatarId| + 1..] == varName
  {
    ReplaceChar(Upper(avatarId), '-', '_') + "_" + varName
  }

  /** The avatar part of the name has no hyphen and no lower-case letter. */
  lemma EnvVarPrefixShape(avatarId: string, varName: string, i: nat)
    requires i < |avatarId|
    ensures EnvVarName(avatarId, varName)[i] != '-'
    ensures !('a' <= EnvVarName(avatarId, varName)[i] <= 'z')
  {
  }

  /** Different variables of one avatar have different names. */
  lemma EnvVarNameInjective(avatarId: string, a: string, b: string)
    requires a != b
    ensures EnvVarName(avatarId, a) != EnvVarName(avatarId, b)
  {
  }

  /** Avatar ids that differ only in letter case or in `-` against `_` share their variables. */
  lemma SpellingsShareVariables()
    ensures EnvVarName("bot-1", "EMAIL_ADDRESS") == EnvVarName("BOT_1", "EMAIL_ADDRESS")
  {
  }

  /**
   * `_get_env_var`: the value of the variable (`None` when unset). A required
   * variable that is unset or empty raises ValueError; an optional one is
   * returned as it is.
   */
  function GetEnvVar(avatarId: string, varName: string, required: bool, env: map<string, string>): (r: Result<Option<string>>)
    ensures var name := EnvVarName(avatarId, varName);
      r.Err? <==> required && (name !in env || env[name] == "")
    ensures r.Err? ==> r.message == "Missing environment variable: " + EnvVarName(avatarId, varName)
    ensures r.Ok? ==> var name := EnvVarName(avatarId, varName);
      r.value == if name in env then Some(env[name]) else None
  {
    var name := EnvVarName(avatarId, varName);
    var value := if name in env then Some(env[name]) else None;
    if required && (value.None? || value.value == "") then
      Err("Missing environment variable: " + name)
    else
      Ok(value)
  }

  /** Only the avatar's own variable matters: environments that agree on it give the same answer. */
  lemma OnlyOwnVariableMatters(avatarId: string, varName: string, required: bool, env1: map<string, string>, env2: map<string, string>)
    requires var name := EnvVarName(avatarId, varName);
      (name in env1 <==> name in env2) && (name in env1 ==> env1[name] == env2[name])
    ensures GetEnvVar(avatarId, varName, required, env1) == GetEnvVar(avatarId, varName, required, env2)
  {
  }
}
