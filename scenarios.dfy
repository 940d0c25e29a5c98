/** Two end-to-end cases of the version computation and the extension
    manifest rewrite, on concrete inputs. */
module Scenarios {
  import opened JsStrings
  import opened Versioning
  import opened Manifests

  /** 5 March 2024 gives the build number "240305". */
  lemma DateStampExample()
    ensures DateStamp(CalendarDate(2024, 2, 5)) == "240305"
  {
    assert SliceFromEnd(NatToString(2024), 2) == "24" by {
      assert NatToString(2) == "2";
      assert NatToString(20) == NatToString(2) + ['0'] == "20";
      assert NatToString(202) == NatToString(20) + ['2'] == "202";
      assert NatToString(2024) == NatToString(202) + ['4'] == "2024";
    }
    assert PadStart(NatToString(3), 2, '0') == "03" by {
      assert NatToString(3) == "3";
    }
    assert PadStart(NatToString(5), 2, '0') == "05" by {
      assert NatToString(5) == "5";
    }
    assert "24" + "03" + "05" == "240305";
  }

  lemma DevBranchPrefix()
    ensures StartsWith("dev-feature", "dev") && !StartsWith("dev-feature", "master")
  {
    assert "dev-feature"[..3] == "dev";
    assert "dev-feature"[..6][0] != "master"[0];
  }

  lemma BetaText()
    ensures GetVersionAsText(Version(1, 2, 3, Some(Beta), Some("240305"))) == "1.2.3-beta.240305"
  {
    var v := Version(1, 2, 3, Some(Beta), Some("240305"));
    assert CoreText(v) == "1.2.3" by {
      assert NatToString(1) == "1" && NatToString(2) == "2" && NatToString(3) == "3";
    }
    assert ChannelName(Beta) == "beta";
    assert "1.2.3" + "-" + "beta" + "." + "240305" == "1.2.3-beta.240305";
  }

  /** An untagged build of 1.2.3 on a branch starting with "dev", with no
      build number set, on 5 March 2024 (`getMonth()` is 2). */
  method DevBranchOnDate() returns (v: Version, text: string)
    ensures v == Version(1, 2, 3, Some(Beta), Some("240305"))
    ensures text == "1.2.3-beta.240305"
  {
    var env := Environment(Some("dev-feature"), None, None);
    DevBranchPrefix();
    DateStampExample();
    v := GetVersion(env, CalendarDate(2024, 2, 5), Semver(1, 2, 3));
    BetaText();
    text := GetVersionAsText(v);
  }

  /** A tagged build of 1.2.3: no channel, and the extension manifest becomes
      public with version "1.2.3", keeping its id, name and gallery flags. */
  method TaggedRelease(id: string, name: string, flags: seq<string>)
    returns (v: Version, text: string, manifestVersion: string, isPublic: bool,
             newId: string, newName: string, newFlags: seq<string>)
    ensures v == Version(1, 2, 3, None, None) && text == "1.2.3"
    ensures manifestVersion == "1.2.3" && isPublic
    ensures newId == id && newName == name && newFlags == flags
  {
    var env := Environment(Some("feature/x"), Some("true"), None);
    v := GetVersion(env, CalendarDate(2024, 2, 5), Semver(1, 2, 3));
    text := GetVersionAsText(v);
    var manifest := new ExtensionManifest("0.0.0", id, name, false, flags);
    UpdateExtensionManifest(manifest, v);
    manifestVersion, isPublic := manifest.version, manifest.public;
    newId, newName, newFlags := manifest.id, manifest.name, manifest.galleryFlags;
  }
}
