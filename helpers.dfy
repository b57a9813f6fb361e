/**
 * Three small decisions of the utilities, with their inputs passed in as
 * values: which provisioning service a host runs (`check_machine`), the
 * workload named in a docker image string (`get_workload_name`), and which
 * SGX options get appended to a Gramine manifest
 * (`check_and_enable_edmm_in_manifest`).
 */
module Helpers {
  import opened Wrappers
  import opened PyStr

  // ---------------------------------------------------------------------
  // check_machine
  // ---------------------------------------------------------------------

  const AzureAgentService := "walinuxagent.service"
  const PccsService := "pccs.service"

  const AzureLinuxAgent := "Azure Linux Agent"
  const DcapClient := "DCAP client"
  const NoProvisioning := "No Provisioning enabled"

  /**
   * `check_machine()`, given the text `exec_shell_cmd` returns for
   * `sudo systemctl --type=service --state=running`.
   */
  function CheckMachine(serviceOutput: string): string
  {
    if Contains(serviceOutput, AzureAgentService) then AzureLinuxAgent
    else if Contains(serviceOutput, PccsService) then DcapClient
    else NoProvisioning
  }

  /** The Azure agent wins over the PCCS service, which wins over nothing; each answer names its case and no other. */
  lemma CheckMachinePriority(serviceOutput: string)
    ensures CheckMachine(serviceOutput) == AzureLinuxAgent <==> Contains(serviceOutput, AzureAgentService)
    ensures CheckMachine(serviceOutput) == DcapClient <==>
              !Contains(serviceOutput, AzureAgentService) && Contains(serviceOutput, PccsService)
    ensures CheckMachine(serviceOutput) == NoProvisioning <==>
              !Contains(serviceOutput, AzureAgentService) && !Contains(serviceOutput, PccsService)
  {
    assert AzureLinuxAgent != DcapClient && AzureLinuxAgent != NoProvisioning && DcapClient != NoProvisioning by {
      assert AzureLinuxAgent[0] != DcapClient[0] && AzureLinuxAgent[0] != NoProvisioning[0];
      assert DcapClient[0] != NoProvisioning[0];
    }
  }

  /** How much provisioning an answer reports: 2 for the Azure agent, 1 for DCAP, 0 for none. */
  function Rank(answer: string): nat
  {
    if answer == AzureLinuxAgent then 2 else if answer == DcapClient then 1 else 0
  }

  /** More running services never lower the answer: listing extra text before or after keeps every service found. */
  lemma CheckMachineMonotone(before: string, serviceOutput: string, after: string)
    ensures Rank(CheckMachine(before + serviceOutput + after)) >= Rank(CheckMachine(serviceOutput))
  {
    CheckMachinePriority(serviceOutput);
    CheckMachinePriority(before + serviceOutput + after);
    var whole := before + serviceOutput + after;
    assert whole == before + (serviceOutput + after);
    if Contains(serviceOutput, AzureAgentService) {
      ContainsAppend(serviceOutput, after, AzureAgentService);
      ContainsPrepend(before, serviceOutput + after, AzureAgentService);
    } else if Contains(serviceOutput, PccsService) {
      ContainsAppend(serviceOutput, after, PccsService);
      ContainsPrepend(before, serviceOutput + after, PccsService);
    }
  }

  // ---------------------------------------------------------------------
  // get_workload_name
  // ---------------------------------------------------------------------

  /** `get_workload_name(docker_image)`: the second space-separated field, or '' when the IndexError is caught. */
  function GetWorkloadName(dockerImage: string): string
  {
    var fields := Split(dockerImage, ' ');
    if |fields| >= 2 then fields[1] else ""
  }

  /** An image string with no space has no second field. */
  lemma WorkloadNameWithoutSpace(dockerImage: string)
    requires ' ' !in dockerImage
    ensures GetWorkloadName(dockerImage) == ""
  {
    SplitField(dockerImage, ' ');
  }

  /**
   * The name is what lies between the first space and the next one (or the
   * end): `first + " " + name` and `first + " " + name + " " + rest` both give
   * `name`, which is '' when two spaces are adjacent.
   */
  lemma WorkloadNameIsSecondField(first: string, name: string, rest: string)
    requires ' ' !in first && ' ' !in name
    ensures GetWorkloadName(first + " " + name) == name
    ensures GetWorkloadName(first + " " + name + " " + rest) == name
  {
    SplitCons(first, ' ', name);
    SplitField(name, ' ');
    SplitCons(first, ' ', name + " " + rest);
    SplitCons(name, ' ', rest);
    assert first + " " + name + " " + rest == first + [' '] + (name + [' '] + rest);
  }

  /** A name never contains the separator. */
  lemma WorkloadNameHasNoSpace(dockerImage: string)
    ensures ' ' !in GetWorkloadName(dockerImage)
  {
    JoinSplit(dockerImage, ' ');
  }

  // ---------------------------------------------------------------------
  // check_and_enable_edmm_in_manifest
  // ---------------------------------------------------------------------

  /** Python's KeyError, for `os.environ[name]` with name unset. */
  datatype KeyError = KeyError(name: string)

  /** The manifest keys looked for, and the lines appended when they are missing. */
  const EdmmKey := "edmm_enable"
  const ExinfoKey := "require_exinfo"
  const EdmmLine := "sgx." + EdmmKey + " = true"
  const ExinfoLine := "sgx." + ExinfoKey + " = true"

  /**
   * `sed -i -e '$ a <text>'` on a file with these contents: text becomes a new
   * last line, after a newline supplied for an unterminated last line; a file
   * with no lines has no last line, so nothing is appended.
   */
  function SedAppend(contents: string, text: string): (r: string)
  {
    if |contents| == 0 then contents
    else if contents[|contents| - 1] == '\n' then contents + text + "\n"
    else contents + "\n" + text + "\n"
  }

  /** The append keeps the old contents as a prefix and makes text its last line. */
  lemma SedAppendAddsLastLine(contents: string, text: string)
    requires |contents| > 0
    ensures var r := SedAppend(contents, text);
      contents <= r && r[|r| - |text| - 1..] == text + "\n" && r[|r| - |text| - 2] == '\n'
  {
  }

  /** `check_and_enable_edmm_in_manifest(manifest_file)`, on the manifest's contents and the environment. */
  function EnableEdmm(env: map<string, string>, manifest: string): Result<string, KeyError>
  {
    if "EDMM" !in env then Err(KeyError("EDMM"))
    else if env["EDMM"] != "1" then Ok(manifest)
    else
      var addEdmmEnable := !Contains(manifest, EdmmKey);
      var addExinfo := !Contains(manifest, ExinfoKey);
      var withEdmm := if addEdmmEnable then SedAppend(manifest, EdmmLine) else manifest;
      Ok(if addExinfo then SedAppend(withEdmm, ExinfoLine) else withEdmm)
  }

  /** Something appended by SedAppend is in the result. */
  lemma SedAppendContains(contents: string, text: string, t: string)
    requires |contents| > 0 && Contains(text, t)
    ensures Contains(SedAppend(contents, text), t)
  {
    var pre := if contents[|contents| - 1] == '\n' then contents else contents + "\n";
    assert SedAppend(contents, text) == pre + (text + "\n");
    ContainsAppend(text, "\n", t);
    ContainsPrepend(pre, text + "\n", t);
  }

  /** Appending keeps what the contents already contain. */
  lemma SedAppendKeeps(contents: string, text: string, t: string)
    requires Contains(contents, t)
    ensures Contains(SedAppend(contents, text), t)
  {
    if |contents| > 0 {
      var r := SedAppend(contents, text);
      assert r == contents + r[|contents|..];
      ContainsAppend(contents, r[|contents|..], t);
    }
  }

  /** Each appended line holds its key. */
  lemma LinesMentionKeys()
    ensures Contains(EdmmLine, EdmmKey) && Contains(ExinfoLine, ExinfoKey)
  {
    ContainsMiddle("sgx.", EdmmKey, " = true");
    ContainsMiddle("sgx.", ExinfoKey, " = true");
  }

  /** With EDMM set to "1" and a non-empty manifest, both options are present afterwards. */
  lemma EnableEdmmMentionsBoth(env: map<string, string>, manifest: string)
    requires "EDMM" in env && env["EDMM"] == "1" && |manifest| > 0
    ensures EnableEdmm(env, manifest).Ok?
    ensures Contains(EnableEdmm(env, manifest).value, EdmmKey)
    ensures Contains(EnableEdmm(env, manifest).value, ExinfoKey)
  {
    LinesMentionKeys();
    EnableEdmmAppends(env, manifest);
    if !Contains(manifest, EdmmKey) {
      SedAppendContains(manifest, EdmmLine, EdmmKey);
      var withEdmm := SedAppend(manifest, EdmmLine);
      if !Contains(manifest, ExinfoKey) {
        SedAppendKeeps(withEdmm, ExinfoLine, EdmmKey);
        SedAppendContains(withEdmm, ExinfoLine, ExinfoKey);
      } else {
        SedAppendKeeps(manifest, EdmmLine, ExinfoKey);
      }
    } else if !Contains(manifest, ExinfoKey) {
      SedAppendKeeps(manifest, ExinfoLine, EdmmKey);
      SedAppendContains(manifest, ExinfoLine, ExinfoKey);
    }
  }

  /** What is appended, in which order: each line only when its key is absent, edmm_enable first. */
  lemma EnableEdmmAppends(env: map<string, string>, manifest: string)
    requires "EDMM" in env && env["EDMM"] == "1"
    ensures var r := EnableEdmm(env, manifest).value;
      (Contains(manifest, EdmmKey) && Contains(manifest, ExinfoKey) ==> r == manifest) &&
      (!Contains(manifest, EdmmKey) && Contains(manifest, ExinfoKey) ==> r == SedAppend(manifest, EdmmLine)) &&
      (Contains(manifest, EdmmKey) && !Contains(manifest, ExinfoKey) ==> r == SedAppend(manifest, ExinfoLine)) &&
      (!Contains(manifest, EdmmKey) && !Contains(manifest, ExinfoKey) ==>
         r == SedAppend(SedAppend(manifest, EdmmLine), ExinfoLine))
  {
  }

  /** Running the check twice changes nothing the first run did not: it is idempotent. */
  lemma EnableEdmmIdempotent(env: map<string, string>, manifest: string)
    requires "EDMM" in env
    ensures EnableEdmm(env, manifest).Ok?
    ensures EnableEdmm(env, EnableEdmm(env, manifest).value) == EnableEdmm(env, manifest)
  {
    if env["EDMM"] == "1" && |manifest| > 0 {
      EnableEdmmMentionsBoth(env, manifest);
    }
  }

  /** Unless EDMM is "1" the manifest is left as it is; without EDMM the lookup raises KeyError. */
  lemma EnableEdmmOnlyWhenSet(env: map<string, string>, manifest: string)
    ensures "EDMM" !in env ==> EnableEdmm(env, manifest) == Err(KeyError("EDMM"))
    ensures "EDMM" in env && env["EDMM"] != "1" ==> EnableEdmm(env, manifest) == Ok(manifest)
  {
  }
}
