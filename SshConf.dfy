/** sshd_config as the service edits and reads it: a list of lines. Writing a
    setting rewrites the lines in three tiers (updateSSHConf); reading starts
    from sshd's defaults and lets the last line of each known key win (the
    parsing loop of GetSSHInfo). */
module SshConf {
  import opened GoStrings

  /** The line `key value` that the service writes. */
  function Setting(key: string, value: string): string {
    key + " " + value
  }

  /** A line that sets `key`. */
  predicate IsKeyLine(line: string, key: string) {
    HasPrefix(line, key + " ")
  }

  /** A commented-out line for `key`. */
  predicate IsCommentedKeyLine(line: string, key: string) {
    HasPrefix(line, "#" + key + " ")
  }

  predicate HasKeyLine(lines: seq<string>, key: string) {
    exists i :: 0 <= i < |lines| && IsKeyLine(lines[i], key)
  }

  /** The position of the first commented-out line for `key`, if any. */
  function FirstCommented(lines: seq<string>, key: string): (r: Option<nat>)
    ensures r.Some? ==> r.value < |lines| && IsCommentedKeyLine(lines[r.value], key)
    ensures r.Some? ==> forall k :: 0 <= k < r.value ==> !IsCommentedKeyLine(lines[k], key)
    ensures r.None? ==> forall k :: 0 <= k < |lines| ==> !IsCommentedKeyLine(lines[k], key)
  {
    if lines == [] then None
    else if IsCommentedKeyLine(lines[0], key) then Some(0)
    else match FirstCommented(lines[1..], key)
      case Some(j) => Some(j + 1)
      case None => None
  }

  /** Every line that sets `key` replaced by the new setting. */
  function ReplaceKeyLines(lines: seq<string>, key: string, value: string): seq<string> {
    seq(|lines|, i requires 0 <= i < |lines| =>
      if IsKeyLine(lines[i], key) then Setting(key, value) else lines[i])
  }

  /** The three tiers of updateSSHConf: replace every line that sets the key;
      failing that, the first commented-out line for it; failing that,
      append the setting. */
  function ConfRewrite(lines: seq<string>, key: string, value: string): seq<string> {
    if HasKeyLine(lines, key) then ReplaceKeyLines(lines, key, value)
    else match FirstCommented(lines, key)
      case Some(j) => lines[..j] + [Setting(key, value)] + lines[j + 1..]
      case None => lines + [Setting(key, value)]
  }

  /** The first pass of updateSSHConf: every `key ` line replaced, and
      whether there was one. */
  method ReplacePass(oldFiles: seq<string>, param: string, value: string)
    returns (newFiles: seq<string>, hasKey: bool)
    ensures hasKey == HasKeyLine(oldFiles, param)
    ensures newFiles == ReplaceKeyLines(oldFiles, param, value)
  {
    hasKey := false;
    newFiles := [];
    for i := 0 to |oldFiles|
      invariant |newFiles| == i
      invariant forall k :: 0 <= k < i ==>
        newFiles[k] == if IsKeyLine(oldFiles[k], param) then Setting(param, value) else oldFiles[k]
      invariant hasKey <==> exists k :: 0 <= k < i && IsKeyLine(oldFiles[k], param)
    {
      var line := oldFiles[i];
      if HasPrefix(line, param + " ") {
        newFiles := newFiles + [param + " " + value];
        hasKey := true;
        continue;
      }
      newFiles := newFiles + [line];
    }
  }

  /** The second pass of updateSSHConf: the first `#key ` line replaced, and
      whether there was one. */
  method CommentPass(oldFiles: seq<string>, param: string, value: string)
    returns (newFiles: seq<string>, hasKey: bool)
    ensures hasKey == FirstCommented(oldFiles, param).Some?
    ensures hasKey ==> var j := FirstCommented(oldFiles, param).value;
      newFiles == oldFiles[..j] + [Setting(param, value)] + oldFiles[j + 1..]
  {
    ghost var first := FirstCommented(oldFiles, param);
    hasKey := false;
    newFiles := [];
    for i := 0 to |oldFiles|
      invariant |newFiles| == i
      invariant hasKey <==> first.Some? && first.value < i
      invariant forall k :: 0 <= k < i ==>
        newFiles[k] == if first == Some(k) then Setting(param, value) else oldFiles[k]
    {
      var line := oldFiles[i];
      if HasPrefix(line, "#" + param + " ") && !hasKey {
        assert first == Some(i);
        newFiles := newFiles + [param + " " + value];
        hasKey := true;
        continue;
      }
      assert first != Some(i);
      newFiles := newFiles + [line];
    }
    if hasKey {
      var j := first.value;
      assert newFiles == oldFiles[..j] + [Setting(param, value)] + oldFiles[j + 1..];
    }
  }

  /** updateSSHConf: the first pass replaces every `key ` line; when it found
      none, a second pass replaces the first `#key ` line; when that found
      none either, the setting is appended to the old lines. */
  method UpdateSSHConf(oldFiles: seq<string>, param: string, value: string)
    returns (newFiles: seq<string>)
    ensures newFiles == ConfRewrite(oldFiles, param, value)
  {
    var hasKey;
    newFiles, hasKey := ReplacePass(oldFiles, param, value);
    if !hasKey {
      newFiles, hasKey := CommentPass(oldFiles, param, value);
    }
    if !hasKey {
      newFiles := [];
      newFiles := newFiles + oldFiles;
      newFiles := newFiles + [param + " " + value];
    }
  }

  /** The rewrite rules, tier by tier; in every tier the other lines keep
      their text and their order. */
  lemma RewriteRules(lines: seq<string>, key: string, value: string)
    ensures var r := ConfRewrite(lines, key, value);
      && (HasKeyLine(lines, key) ==>
            |r| == |lines|
            && forall i :: 0 <= i < |lines| ==>
                 r[i] == if IsKeyLine(lines[i], key) then Setting(key, value) else lines[i])
      && (!HasKeyLine(lines, key) && FirstCommented(lines, key).Some? ==>
            var j := FirstCommented(lines, key).value;
            && |r| == |lines| && r[j] == Setting(key, value)
            && (forall k :: 0 <= k < j ==> !IsCommentedKeyLine(lines[k], key))
            && forall i :: 0 <= i < |lines| && i != j ==> r[i] == lines[i])
      && (!HasKeyLine(lines, key) && FirstCommented(lines, key).None? ==>
            r == lines + [Setting(key, value)])
  {
  }

  /** The result always holds the setting and has n or n + 1 lines. */
  lemma RewriteHoldsSetting(lines: seq<string>, key: string, value: string)
    ensures var r := ConfRewrite(lines, key, value);
      Setting(key, value) in r && (|r| == |lines| || |r| == |lines| + 1)
  {
    var r := ConfRewrite(lines, key, value);
    if HasKeyLine(lines, key) {
      var i :| 0 <= i < |lines| && IsKeyLine(lines[i], key);
      assert r[i] == Setting(key, value);
    } else if FirstCommented(lines, key).Some? {
      var j := FirstCommented(lines, key).value;
      assert r[j] == Setting(key, value);
    }
  }

  lemma SettingIsKeyLine(key: string, value: string)
    ensures IsKeyLine(Setting(key, value), key)
  {
    assert Setting(key, value)[..|key + " "|] == key + " ";
  }

  /** After the rewrite, the lines that set `key` are exactly copies of the
      new setting, and there is at least one. */
  lemma RewriteKeyLines(lines: seq<string>, key: string, value: string)
    ensures var r := ConfRewrite(lines, key, value);
      && HasKeyLine(r, key)
      && forall i :: 0 <= i < |r| && IsKeyLine(r[i], key) ==> r[i] == Setting(key, value)
  {
    var r := ConfRewrite(lines, key, value);
    SettingIsKeyLine(key, value);
    RewriteHoldsSetting(lines, key, value);
    var i :| 0 <= i < |r| && r[i] == Setting(key, value);
    assert IsKeyLine(r[i], key);
    RewriteRules(lines, key, value);
  }

  /** Writing the same setting twice gives what writing it once gives. */
  lemma RewriteIdempotent(lines: seq<string>, key: string, value: string)
    ensures ConfRewrite(ConfRewrite(lines, key, value), key, value) == ConfRewrite(lines, key, value)
  {
    var r := ConfRewrite(lines, key, value);
    RewriteKeyLines(lines, key, value);
    assert ConfRewrite(r, key, value) == ReplaceKeyLines(r, key, value);
  }

  /** The value the service reads for `key`: that of the last line setting
      it, with every occurrence of "key " removed; the default if none does. */
  function ConfValue(lines: seq<string>, key: string, default: string): string {
    if lines == [] then default
    else
      var last := lines[|lines| - 1];
      if IsKeyLine(last, key) then ReplaceAll(last, key + " ", "")
      else ConfValue(lines[..|lines| - 1], key, default)
  }

  /** No line sets the key: the default stands. */
  lemma {:induction false} ConfValueDefault(lines: seq<string>, key: string, default: string)
    requires !HasKeyLine(lines, key)
    ensures ConfValue(lines, key, default) == default
  {
    if lines != [] {
      ConfValueDefault(lines[..|lines| - 1], key, default);
    }
  }

  /** The last line that sets the key decides its value. */
  lemma {:induction false} ConfValueLastWins(lines: seq<string>, key: string, default: string, j: nat)
    requires j < |lines| && IsKeyLine(lines[j], key)
    requires forall k :: j < k < |lines| ==> !IsKeyLine(lines[k], key)
    ensures ConfValue(lines, key, default) == ReplaceAll(lines[j], key + " ", "")
  {
    if j < |lines| - 1 {
      var init := lines[..|lines| - 1];
      assert init[j] == lines[j];
      ConfValueLastWins(init, key, default, j);
    }
  }

  /** When every line that sets the key is the same line `s`, and one does,
      the value is the one `s` carries. */
  lemma {:induction false} ConfValueUniform(lines: seq<string>, key: string, default: string, s: string)
    requires HasKeyLine(lines, key)
    requires forall i :: 0 <= i < |lines| && IsKeyLine(lines[i], key) ==> lines[i] == s
    ensures ConfValue(lines, key, default) == ReplaceAll(s, key + " ", "")
  {
    var last := lines[|lines| - 1];
    if !IsKeyLine(last, key) {
      var init := lines[..|lines| - 1];
      var i :| 0 <= i < |lines| && IsKeyLine(lines[i], key);
      assert init[i] == lines[i];
      ConfValueUniform(init, key, default, s);
    }
  }

  /** Reading back a setting that was just written gives the written value,
      unless the value itself contains "key ". */
  lemma ReadAfterUpdate(lines: seq<string>, key: string, value: string, default: string)
    requires !Contains(value, key + " ")
    ensures ConfValue(ConfRewrite(lines, key, value), key, default) == value
  {
    RewriteKeyLines(lines, key, value);
    ConfValueUniform(ConfRewrite(lines, key, value), key, default, Setting(key, value));
    SettingIsKeyLine(key, value);
    assert Setting(key, value)[|key + " "|..] == value;
    ReplaceAllAbsent(value, key + " ", "");
  }

  /** The configuration fields the service reports. */
  datatype SSHInfo = SSHInfo(
    port: string,
    listenAddress: string,
    passwordAuthentication: string,
    pubkeyAuthentication: string,
    permitRootLogin: string,
    useDNS: string)

  /** The defaults the service starts from. */
  const Defaults: SSHInfo := SSHInfo("22", "0.0.0.0", "yes", "yes", "yes", "yes")

  /** One line's effect on the value read so far for `key`. */
  function Overwrite(current: string, line: string, key: string): string {
    if IsKeyLine(line, key) then ReplaceAll(line, key + " ", "") else current
  }

  /** Reading one more line is overwriting with it. */
  lemma ConfValueStep(lines: seq<string>, i: nat, key: string, default: string)
    requires i < |lines|
    ensures ConfValue(lines[..i + 1], key, default)
            == Overwrite(ConfValue(lines[..i], key, default), lines[i], key)
  {
    assert lines[..i + 1][..i] == lines[..i];
  }

  /** The body of the parsing loop: every known key the line sets overwrites
      its field. */
  method ApplyLine(data: SSHInfo, line: string) returns (next: SSHInfo)
    ensures next.port == Overwrite(data.port, line, "Port")
    ensures next.listenAddress == Overwrite(data.listenAddress, line, "ListenAddress")
    ensures next.passwordAuthentication
            == Overwrite(data.passwordAuthentication, line, "PasswordAuthentication")
    ensures next.pubkeyAuthentication
            == Overwrite(data.pubkeyAuthentication, line, "PubkeyAuthentication")
    ensures next.permitRootLogin == Overwrite(data.permitRootLogin, line, "PermitRootLogin")
    ensures next.useDNS == Overwrite(data.useDNS, line, "UseDNS")
  {
    assert "Port" + " " == "Port ";
    assert "ListenAddress" + " " == "ListenAddress ";
    assert "PasswordAuthentication" + " " == "PasswordAuthentication ";
    assert "PubkeyAuthentication" + " " == "PubkeyAuthentication ";
    assert "PermitRootLogin" + " " == "PermitRootLogin ";
    assert "UseDNS" + " " == "UseDNS ";
    next := data;
    if HasPrefix(line, "Port ") {
      next := next.(port := ReplaceAll(line, "Port ", ""));
    }
    if HasPrefix(line, "ListenAddress ") {
      next := next.(listenAddress := ReplaceAll(line, "ListenAddress ", ""));
    }
    if HasPrefix(line, "PasswordAuthentication ") {
      next := next.(passwordAuthentication := ReplaceAll(line, "PasswordAuthentication ", ""));
    }
    if HasPrefix(line, "PubkeyAuthentication ") {
      next := next.(pubkeyAuthentication := ReplaceAll(line, "PubkeyAuthentication ", ""));
    }
    if HasPrefix(line, "PermitRootLogin ") {
      next := next.(permitRootLogin := ReplaceAll(line, "PermitRootLogin ", ""));
    }
    if HasPrefix(line, "UseDNS ") {
      next := next.(useDNS := ReplaceAll(line, "UseDNS ", ""));
    }
  }

  /** Every field as the configuration sets it, each from its own default. */
  ghost predicate ReadAs(data: SSHInfo, lines: seq<string>) {
    && data.port == ConfValue(lines, "Port", Defaults.port)
    && data.listenAddress == ConfValue(lines, "ListenAddress", Defaults.listenAddress)
    && data.passwordAuthentication
       == ConfValue(lines, "PasswordAuthentication", Defaults.passwordAuthentication)
    && data.pubkeyAuthentication
       == ConfValue(lines, "PubkeyAuthentication", Defaults.pubkeyAuthentication)
    && data.permitRootLogin == ConfValue(lines, "PermitRootLogin", Defaults.permitRootLogin)
    && data.useDNS == ConfValue(lines, "UseDNS", Defaults.useDNS)
  }

  /** The configuration part of GetSSHInfo: start from the defaults and let
      every line that sets a known key overwrite that field. */
  method GetSSHInfo(lines: seq<string>) returns (data: SSHInfo)
    ensures data.port == ConfValue(lines, "Port", Defaults.port)
    ensures data.listenAddress == ConfValue(lines, "ListenAddress", Defaults.listenAddress)
    ensures data.passwordAuthentication
            == ConfValue(lines, "PasswordAuthentication", Defaults.passwordAuthentication)
    ensures data.pubkeyAuthentication
            == ConfValue(lines, "PubkeyAuthentication", Defaults.pubkeyAuthentication)
    ensures data.permitRootLogin == ConfValue(lines, "PermitRootLogin", Defaults.permitRootLogin)
    ensures data.useDNS == ConfValue(lines, "UseDNS", Defaults.useDNS)
  {
    data := Defaults;
    for i := 0 to |lines|
      invariant ReadAs(data, lines[..i])
    {
      ConfValueStep(lines, i, "Port", Defaults.port);
      ConfValueStep(lines, i, "ListenAddress", Defaults.listenAddress);
      ConfValueStep(lines, i, "PasswordAuthentication", Defaults.passwordAuthentication);
      ConfValueStep(lines, i, "PubkeyAuthentication", Defaults.pubkeyAuthentication);
      ConfValueStep(lines, i, "PermitRootLogin", Defaults.permitRootLogin);
      ConfValueStep(lines, i, "UseDNS", Defaults.useDNS);
      data := ApplyLine(data, lines[i]);
    }
    assert lines[..|lines|] == lines;
  }
}
