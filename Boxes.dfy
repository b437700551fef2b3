/**
  `VagrantBox` (vagrant.py:13-97): a machine of the Vagrantfile, with its provisioning
  scripts and network interfaces, and the `config.vm.define` block its `definition`
  property renders.
*/
module Boxes {
  import opened Wrappers
  import opened Text

  /**
    A network interface as `definition` uses it: its `address` and its `config_lines`
    method, which is given the interface number and the box name. Both belong to code
    outside vagrant.py and stay uninterpreted.
  */
  datatype Interface = Interface(address: string, configLines: (nat, string) -> string)

  /** A script argument of the constructor: a single script, or a list of them. */
  datatype ScriptArg = Script(script: string) | Scripts(scripts: seq<string>)

  // ---------------------------------------------------------------------------
  // Constructor arguments (vagrant.py:18-43)
  // ---------------------------------------------------------------------------

  /** `name.replace("-", "")`: Vagrant would read a `-` in a machine name as an operator. */
  function RemoveDashes(s: string): (r: string)
    ensures '-' !in r
    ensures |r| <= |s|
  {
    if s == [] then ""
    else if s[0] == '-' then RemoveDashes(s[1..])
    else [s[0]] + RemoveDashes(s[1..])
  }

  /** Every character other than `-` is kept, as often as it occurs. */
  lemma {:induction false} RemoveDashesKeepsOthers(s: string, c: char)
    requires c != '-'
    ensures multiset(RemoveDashes(s))[c] == multiset(s)[c]
  {
    if s != [] {
      RemoveDashesKeepsOthers(s[1..], c);
      assert s == [s[0]] + s[1..];
    }
  }

  /** Removal works piece by piece, so the kept characters stay in their order. */
  lemma {:induction false} RemoveDashesAppend(a: string, b: string)
    ensures RemoveDashes(a + b) == RemoveDashes(a) + RemoveDashes(b)
  {
    if a != [] {
      assert (a + b)[1..] == a[1..] + b;
      RemoveDashesAppend(a[1..], b);
    } else {
      assert a + b == b;
    }
  }

  /** A name without `-` is kept as it is; so sanitising twice changes nothing more. */
  lemma {:induction false} RemoveDashesIdentity(s: string)
    requires '-' !in s
    ensures RemoveDashes(s) == s
  {
    if s != [] {
      assert s == [s[0]] + s[1..];
      RemoveDashesIdentity(s[1..]);
    }
  }

  /** `[x] if type(x) is not list else x`. */
  function AsList(arg: ScriptArg): seq<string> {
    match arg
    case Script(s) => [s]
    case Scripts(ss) => ss
  }

  /**
    The `install` attribute as line 33 leaves it: a single script is stored under the
    misspelt attribute `nstall`, so `install` is never set and `definition` fails when
    it reads `self.install`.
  */
  function InstallAsWritten(arg: ScriptArg): (r: Option<seq<string>>)
    ensures r.None? <==> arg.Script?
  {
    match arg
    case Script(_) => None
    case Scripts(ss) => Some(ss)
  }

  /** A single install script is lost as written, where the other arguments keep theirs. */
  lemma {:induction false} SingleInstallScriptLost(s: string)
    ensures InstallAsWritten(Script(s)) == None
    ensures AsList(Script(s)) == [s]
  {
  }

  // ---------------------------------------------------------------------------
  // Provisioning directives (vagrant.py:72-78)
  // ---------------------------------------------------------------------------

  /** `script.replace('"', '\\"')`: every double quote gets a backslash before it. */
  function Escape(s: string): (r: string)
    ensures |r| >= |s|
  {
    if s == [] then ""
    else if s[0] == '"' then "\\\"" + Escape(s[1..])
    else [s[0]] + Escape(s[1..])
  }

  /** Reads an escaped script back: `\"` becomes `"`, every other character stays. */
  function Unescape(s: string): string {
    if s == [] then ""
    else if |s| >= 2 && s[0] == '\\' && s[1] == '"' then "\"" + Unescape(s[2..])
    else [s[0]] + Unescape(s[1..])
  }

  /** An escaped script never starts with a bare double quote. */
  lemma {:induction false} EscapeStart(s: string)
    requires s != []
    ensures Escape(s)[0] != '"'
  {
  }

  /** Escaping loses nothing: the script is otherwise verbatim. */
  lemma {:induction false} EscapeRoundTrip(s: string)
    ensures Unescape(Escape(s)) == s
  {
    if s != [] {
      EscapeRoundTrip(s[1..]);
      if s[0] == '"' {
        assert Escape(s)[2..] == Escape(s[1..]);
      } else {
        if s[1..] != [] {
          EscapeStart(s[1..]);
        }
        assert Escape(s)[1..] == Escape(s[1..]);
      }
    }
  }

  /** In an escaped script every double quote has a backslash before it. */
  lemma {:induction false} EscapedQuotesArePreceded(s: string)
    ensures forall i :: 0 <= i < |Escape(s)| && Escape(s)[i] == '"' ==> 1 <= i && Escape(s)[i - 1] == '\\'
  {
    if s != [] {
      EscapedQuotesArePreceded(s[1..]);
      var e, rest := Escape(s), Escape(s[1..]);
      var head := |e| - |rest|;
      assert e == e[..head] + rest;
      forall i | 0 <= i < |e| && e[i] == '"'
        ensures 1 <= i && e[i - 1] == '\\'
      {
        if i >= head {
          assert e[i] == rest[i - head];
        }
      }
    }
  }

  /** The text before the escaped script in a provisioning directive. */
  function DirectiveHead(name: string): string {
    "\n            " + name + ".vm.provision :shell, :inline => \""
  }

  const DirectiveTail := "\"\n            "

  /** The provisioning directive of one script. */
  function Directive(name: string, script: string): string {
    DirectiveHead(name) + Escape(script) + DirectiveTail
  }

  /** The script a directive runs, read back from the directive's text. */
  function ScriptOf(name: string, directive: string): string
    requires |DirectiveHead(name)| + |DirectiveTail| <= |directive|
  {
    Unescape(directive[|DirectiveHead(name)|..|directive| - |DirectiveTail|])
  }

  /** A directive runs exactly the script it was made from. */
  lemma {:induction false} DirectiveRunsScript(name: string, script: string)
    ensures ScriptOf(name, Directive(name, script)) == script
  {
    var d := Directive(name, script);
    assert d[|DirectiveHead(name)|..|d| - |DirectiveTail|] == Escape(script);
    EscapeRoundTrip(script);
  }

  /** Directives made from different scripts differ. */
  lemma {:induction false} DirectiveInjective(name: string, s1: string, s2: string)
    ensures Directive(name, s1) == Directive(name, s2) <==> s1 == s2
  {
    DirectiveRunsScript(name, s1);
    DirectiveRunsScript(name, s2);
  }

  /** One directive per script, in the order of the scripts. */
  function Directives(name: string, scripts: seq<string>): (r: seq<string>)
    ensures |r| == |scripts|
  {
    seq(|scripts|, i requires 0 <= i < |scripts| => Directive(name, scripts[i]))
  }

  /** The `provision_lines` text: the directives one after the other. */
  function ProvisionLines(name: string, scripts: seq<string>): string {
    Concat(Directives(name, scripts))
  }

  /** The provisioning text of consecutive script lists is their texts one after the other. */
  lemma {:induction false} ProvisionLinesSplit(name: string, a: seq<string>, b: seq<string>)
    ensures ProvisionLines(name, a + b) == ProvisionLines(name, a) + ProvisionLines(name, b)
  {
    assert Directives(name, a + b) == Directives(name, a) + Directives(name, b);
    ConcatSplit(Directives(name, a), Directives(name, b));
  }

  /**
    The scripts provisioned, in the order `definition` joins them: before the install,
    the install, the generated network commands, the network scripts, after the install.
  */
  function InstallScripts(before: seq<string>, install: seq<string>, networkConfig: seq<string>,
                          networkScripts: seq<string>, after: seq<string>): (r: seq<string>)
    ensures |r| == |before| + |install| + |networkConfig| + |networkScripts| + |after|
  {
    before + install + networkConfig + networkScripts + after
  }

  /** The provisioning text is the five groups' texts, in that order. */
  lemma {:induction false} ProvisionOrder(name: string, before: seq<string>, install: seq<string>, networkConfig: seq<string>,
                       networkScripts: seq<string>, after: seq<string>)
    ensures ProvisionLines(name, InstallScripts(before, install, networkConfig, networkScripts, after))
      == ProvisionLines(name, before) + ProvisionLines(name, install) + ProvisionLines(name, networkConfig)
         + ProvisionLines(name, networkScripts) + ProvisionLines(name, after)
  {
    ProvisionLinesSplit(name, before + install + networkConfig + networkScripts, after);
    ProvisionLinesSplit(name, before + install + networkConfig, networkScripts);
    ProvisionLinesSplit(name, before + install, networkConfig);
    ProvisionLinesSplit(name, before, install);
  }

  /** `t` occurs in `s` starting at position `i`. */
  predicate OccursAt(t: string, s: string, i: int) {
    0 <= i <= |s| - |t| && s[i..i + |t|] == t
  }

  /** A text occurs inside another. */
  ghost predicate Occurs(t: string, s: string) {
    exists i :: OccursAt(t, s, i)
  }

  /** A text occurs right after a prefix it follows. */
  lemma {:induction false} OccursAfter(a: string, t: string)
    ensures OccursAt(t, a + t, |a|)
  {
    assert (a + t)[|a|..|a| + |t|] == t;
  }

  /** An occurrence stays where it is when more text is appended. */
  lemma {:induction false} OccursExtended(t: string, s: string, i: int, more: string)
    requires OccursAt(t, s, i)
    ensures OccursAt(t, s + more, i)
  {
    assert (s + more)[i..i + |t|] == s[i..i + |t|];
  }

  /** A single install script, normalised to a list, is provisioned right after the scripts before it. */
  lemma {:induction false} SingleInstallScriptProvisioned(name: string, before: seq<string>, script: string,
                                       networkConfig: seq<string>, networkScripts: seq<string>, after: seq<string>)
    ensures Occurs(Directive(name, script),
      ProvisionLines(name, InstallScripts(before, AsList(Script(script)), networkConfig, networkScripts, after)))
  {
    ProvisionOrder(name, before, [script], networkConfig, networkScripts, after);
    var d := Directive(name, script);
    assert Directives(name, [script]) == [] + [d];
    ConcatAppend([], d);
    assert ProvisionLines(name, [script]) == d;
    var a := ProvisionLines(name, before);
    OccursAfter(a, d);
    OccursExtended(d, a + d, |a|, ProvisionLines(name, networkConfig));
    OccursExtended(d, a + d + ProvisionLines(name, networkConfig), |a|, ProvisionLines(name, networkScripts));
    OccursExtended(d, a + d + ProvisionLines(name, networkConfig) + ProvisionLines(name, networkScripts), |a|,
                   ProvisionLines(name, after));
    assert AsList(Script(script)) == [script];
  }

  // ---------------------------------------------------------------------------
  // Network interfaces (vagrant.py:58-70)
  // ---------------------------------------------------------------------------

  /** The device of the interface at position `k`: `eth1` for the first. */
  function Device(k: nat): string {
    "eth" + Decimal(k + 1)
  }

  /** Each interface has a device of its own. */
  lemma {:induction false} DevicesDistinct(j: nat, k: nat)
    ensures Device(j) == Device(k) <==> j == k
  {
    if Device(j) == Device(k) {
      assert Device(j)[3..] == Decimal(j + 1) && Device(k)[3..] == Decimal(k + 1);
      DecimalInjective(j + 1, k + 1);
    }
  }

  /** `"ip a add %s dev eth%i"`: gives the device its address. */
  function AddressCommand(address: string, device: string): string {
    "ip a add " + address + " dev " + device
  }

  /** `"ip l set eth%i up"`: brings the device up. */
  function LinkUpCommand(device: string): string {
    "ip l set " + device + " up"
  }

  /** The `network_config` list: for each interface, its address command and its link-up command. */
  function NetworkConfig(interfaces: seq<Interface>): seq<string> {
    if interfaces == [] then []
    else
      var k := |interfaces| - 1;
      NetworkConfig(interfaces[..k]) + [AddressCommand(interfaces[k].address, Device(k)), LinkUpCommand(Device(k))]
  }

  /**
    Two commands per interface, in interface order: the one at `2k` gives interface `k`
    its address on its device, the next brings that device up.
  */
  lemma {:induction false} NetworkConfigShape(interfaces: seq<Interface>)
    ensures |NetworkConfig(interfaces)| == 2 * |interfaces|
    ensures forall k :: 0 <= k < |interfaces| ==>
      && NetworkConfig(interfaces)[2 * k] == AddressCommand(interfaces[k].address, Device(k))
      && NetworkConfig(interfaces)[2 * k + 1] == LinkUpCommand(Device(k))
  {
    if interfaces != [] {
      var n := |interfaces| - 1;
      var prefix := NetworkConfig(interfaces[..n]);
      NetworkConfigShape(interfaces[..n]);
      assert NetworkConfig(interfaces) == prefix
        + [AddressCommand(interfaces[n].address, Device(n)), LinkUpCommand(Device(n))];
      forall k | 0 <= k < |interfaces|
        ensures NetworkConfig(interfaces)[2 * k] == AddressCommand(interfaces[k].address, Device(k))
        ensures NetworkConfig(interfaces)[2 * k + 1] == LinkUpCommand(Device(k))
      {
        if k < n {
          assert interfaces[..n][k] == interfaces[k];
          assert NetworkConfig(interfaces)[2 * k] == prefix[2 * k];
          assert NetworkConfig(interfaces)[2 * k + 1] == prefix[2 * k + 1];
        }
      }
    }
  }

  /** What `config_lines` returns for each interface: it is given `k + 2` for the interface at `k`. */
  function ConfigCalls(interfaces: seq<Interface>, name: string): (r: seq<string>)
    ensures |r| == |interfaces|
  {
    seq(|interfaces|, k requires 0 <= k < |interfaces| => interfaces[k].configLines(k + 2, name))
  }

  /** The `network_configuration_lines` text. */
  function NetworkConfigurationLines(interfaces: seq<Interface>, name: string): string {
    Concat(ConfigCalls(interfaces, name))
  }

  // ---------------------------------------------------------------------------
  // The rendered block (vagrant.py:80-97)
  // ---------------------------------------------------------------------------

  /** The synced-folder line, present when a script folder is set. */
  function FolderLine(name: string, scriptFolder: Option<string>): (r: string)
    ensures r == "" <==> !Truthy(scriptFolder)
  {
    if Truthy(scriptFolder) then name + ".vm.synced_folder \"" + scriptFolder.value + "\", \"/scripts\"" else ""
  }

  /** The opening of the `config.vm.define` block of machine `name`. */
  function DefineHead(name: string): string {
    "\n        config.vm.define :" + name + " do |" + name + "|\n            "
  }

  /** The template with its fields filled in. */
  function Render(name: string, box: string, folderLine: string, provisionLines: string, networkLines: string): string {
    DefineHead(name) + name + ".vm.box = \"" + box + "\"\n            "
      + folderLine + "\n            " + provisionLines + "\n            " + networkLines + "\n        end\n        "
  }

  /** The text `definition` returns for a box with these attributes. */
  function BoxDefinition(name: string, box: string, scriptFolder: Option<string>, before: seq<string>,
                         install: seq<string>, after: seq<string>, networkScripts: seq<string>,
                         interfaces: seq<Interface>): string {
    var scripts := InstallScripts(before, install, NetworkConfig(interfaces), networkScripts, after);
    Render(name, box, FolderLine(name, scriptFolder), ProvisionLines(name, scripts),
           NetworkConfigurationLines(interfaces, name))
  }

  /** Whatever its fields hold, the block opens with the machine's `config.vm.define`. */
  lemma {:induction false} RenderOpensDefine(name: string, box: string, folderLine: string, provisionLines: string, networkLines: string)
    ensures StartsWith(Render(name, box, folderLine, provisionLines, networkLines),
                       "\n        config.vm.define :" + name + " do |" + name + "|")
  {
    var code := Render(name, box, folderLine, provisionLines, networkLines);
    var opening := "\n        config.vm.define :" + name + " do |" + name + "|";
    assert DefineHead(name) == opening + "\n            ";
    assert code[..|opening|] == opening;
  }

  /**
    The block defines the machine under its sanitised name, which holds no `-` and
    keeps every other character of the name given.
  */
  lemma {:induction false} DefinitionKeyedBySanitisedName(rawName: string, box: string, scriptFolder: Option<string>,
                                       before: seq<string>, install: seq<string>, after: seq<string>,
                                       networkScripts: seq<string>, interfaces: seq<Interface>)
    ensures var name := RemoveDashes(rawName);
      && StartsWith(BoxDefinition(name, box, scriptFolder, before, install, after, networkScripts, interfaces),
                    "\n        config.vm.define :" + name + " do |" + name + "|")
      && '-' !in name
      && forall c :: c != '-' ==> multiset(name)[c] == multiset(rawName)[c]
  {
    var name := RemoveDashes(rawName);
    var scripts := InstallScripts(before, install, NetworkConfig(interfaces), networkScripts, after);
    RenderOpensDefine(name, box, FolderLine(name, scriptFolder), ProvisionLines(name, scripts),
                      NetworkConfigurationLines(interfaces, name));
    forall c | c != '-'
      ensures multiset(name)[c] == multiset(rawName)[c]
    {
      RemoveDashesKeepsOthers(rawName, c);
    }
  }

  /** One more interface adds its two commands and its `config_lines` text. */
  lemma {:induction false} NetworkStep(interfaces: seq<Interface>, i: nat, name: string)
    requires i < |interfaces|
    ensures NetworkConfig(interfaces[..i + 1]) == NetworkConfig(interfaces[..i])
      + [AddressCommand(interfaces[i].address, Device(i)), LinkUpCommand(Device(i))]
    ensures Concat(ConfigCalls(interfaces[..i + 1], name))
      == Concat(ConfigCalls(interfaces[..i], name)) + interfaces[i].configLines(i + 2, name)
  {
    assert interfaces[..i + 1][..i] == interfaces[..i];
    assert ConfigCalls(interfaces[..i + 1], name) == ConfigCalls(interfaces[..i], name)
      + [interfaces[i].configLines(i + 2, name)];
    ConcatAppend(ConfigCalls(interfaces[..i], name), interfaces[i].configLines(i + 2, name));
  }

  /** One more script adds its directive. */
  lemma {:induction false} ProvisionStep(name: string, scripts: seq<string>, j: nat)
    requires j < |scripts|
    ensures ProvisionLines(name, scripts[..j + 1]) == ProvisionLines(name, scripts[..j]) + Directive(name, scripts[j])
  {
    assert Directives(name, scripts[..j + 1]) == Directives(name, scripts[..j]) + [Directive(name, scripts[j])];
    ConcatAppend(Directives(name, scripts[..j]), Directive(name, scripts[j]));
  }

  // ---------------------------------------------------------------------------
  // The box
  // ---------------------------------------------------------------------------

  class VagrantBox {
    var name: string
    var box: string
    var scriptFolder: Option<string>
    var beforeInstall: seq<string>
    var install: seq<string>
    var afterInstall: seq<string>
    var networkScripts: seq<string>
    var networkInterfaces: seq<Interface>

    /**
      `__init__`, with the `install` argument normalised like the others (line 33 as
      written loses a single install script; see `InstallAsWritten`).
    */
    constructor(name: string, box: string, beforeInstall: ScriptArg, install: ScriptArg,
                afterInstall: ScriptArg, networkScripts: ScriptArg, scriptFolder: Option<string>)
      ensures this.name == RemoveDashes(name)
      ensures this.networkInterfaces == [] && this.box == box && this.scriptFolder == scriptFolder
      ensures this.beforeInstall == AsList(beforeInstall) && this.install == AsList(install)
      ensures this.afterInstall == AsList(afterInstall) && this.networkScripts == AsList(networkScripts)
    {
      this.name := RemoveDashes(name);
      this.networkInterfaces := [];
      this.box := box;
      this.scriptFolder := scriptFolder;
      this.beforeInstall := AsList(beforeInstall);
      this.install := AsList(install);
      this.afterInstall := AsList(afterInstall);
      this.networkScripts := AsList(networkScripts);
    }

    /** The `definition` property: changes no attribute and returns the rendered block. */
    method Definition() returns (code: string)
      ensures code == BoxDefinition(name, box, scriptFolder, beforeInstall, install, afterInstall,
                                    networkScripts, networkInterfaces)
    {
      var provisionLines := "";
      var networkConfig: seq<string> := [];
      var networkConfigurationLines := "";
      var interfaceNumber := 2;
      var i := 0;
      while i < |networkInterfaces|
        invariant 0 <= i <= |networkInterfaces|
        invariant interfaceNumber == i + 2
        invariant networkConfig == NetworkConfig(networkInterfaces[..i])
        invariant networkConfigurationLines == Concat(ConfigCalls(networkInterfaces[..i], name))
      {
        var iface := networkInterfaces[i];
        NetworkStep(networkInterfaces, i, name);
        networkConfigurationLines := networkConfigurationLines + iface.configLines(interfaceNumber, name);
        assert Device(i) == "eth" + Decimal(interfaceNumber - 1);
        networkConfig := networkConfig + [AddressCommand(iface.address, "eth" + Decimal(interfaceNumber - 1))];
        networkConfig := networkConfig + [LinkUpCommand("eth" + Decimal(interfaceNumber - 1))];
        interfaceNumber := interfaceNumber + 1;
        i := i + 1;
      }
      assert networkInterfaces[..i] == networkInterfaces;

      var installScripts := beforeInstall + install + networkConfig + networkScripts + afterInstall;
      var j := 0;
      while j < |installScripts|
        invariant 0 <= j <= |installScripts|
        invariant provisionLines == ProvisionLines(name, installScripts[..j])
      {
        ProvisionStep(name, installScripts, j);
        provisionLines := provisionLines + Directive(name, installScripts[j]);
        j := j + 1;
      }
      assert installScripts[..j] == installScripts;

      var scriptFolderLine;
      if Truthy(scriptFolder) {
        scriptFolderLine := name + ".vm.synced_folder \"" + scriptFolder.value + "\", \"/scripts\"";
      } else {
        scriptFolderLine := "";
      }
      assert scriptFolderLine == FolderLine(name, scriptFolder);
      assert installScripts == InstallScripts(beforeInstall, install, networkConfig, networkScripts, afterInstall);
      code := Render(name, box, scriptFolderLine, provisionLines, networkConfigurationLines);
    }
  }
}
