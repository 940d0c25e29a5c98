/** The two manifest rewrites of the build script (`updateExtensionManifest`
    and `updateTaskManifest` in gulpfile.js), on manifests already parsed from
    vss-extension.json and task/task.json. */
module Manifests {
  import opened JsStrings
  import opened Versioning

  /** The task id every prerelease task manifest gets. */
  const PrereleaseTaskId: string := "6b2c79cc-6383-448d-b94f-805677f14290"

  /** The fields of vss-extension.json that the script reads or writes. */
  class ExtensionManifest {
    var version: string
    var id: string
    var name: string
    var public: bool
    var galleryFlags: seq<string>

    constructor (version: string, id: string, name: string, public: bool, galleryFlags: seq<string>)
      ensures this.version == version && this.id == id && this.name == name
      ensures this.public == public && this.galleryFlags == galleryFlags
    {
      this.version := version;
      this.id := id;
      this.name := name;
      this.public := public;
      this.galleryFlags := galleryFlags;
    }
  }

  /** The `version` object of task.json. `Prerelease` is `None` while the
      property is undefined, which is also what the script writes into it. */
  class TaskVersion {
    var Major: int
    var Minor: int
    var Patch: int
    var Prerelease: Option<string>

    constructor (major: int, minor: int, patch: int, prerelease: Option<string>)
      ensures Major == major && Minor == minor && Patch == patch && Prerelease == prerelease
    {
      Major, Minor, Patch, Prerelease := major, minor, patch, prerelease;
    }
  }

  /** The fields of task.json that the script reads or writes. */
  class TaskManifest {
    var version: TaskVersion
    var helpMarkDown: string
    var friendlyName: string
    var id: string

    constructor (version: TaskVersion, helpMarkDown: string, friendlyName: string, id: string)
      ensures this.version == version && this.helpMarkDown == helpMarkDown
      ensures this.friendlyName == friendlyName && this.id == id
    {
      this.version := version;
      this.helpMarkDown := helpMarkDown;
      this.friendlyName := friendlyName;
      this.id := id;
    }
  }

  /** The id suffix of a prerelease extension: "alpha" when the rendered
      version mentions "alpha", otherwise "beta". */
  function ExtensionIdSuffix(v: Version): (suffix: string)
    ensures suffix == "alpha" || suffix == "beta"
  {
    if Contains(GetVersionAsText(v), "alpha") then "alpha" else "beta"
  }

  /** The extension's version for a prerelease: "M.m.p.<build>". */
  function PrereleaseExtensionVersion(v: Version): (text: string)
    ensures StartsWith(text, CoreText(v))
    ensures v.buildnumber.Some? && AllDigits(v.buildnumber.value) ==>
              forall i :: 0 <= i < |text| ==> IsDigit(text[i]) || text[i] == '.'
  {
    CoreText(v) + "." + ConcatText(v.buildnumber)
  }

  /** The short version the task's friendly name gets: "M.m.p-<pre>". */
  function ShortenedVersion(v: Version): (text: string)
    ensures StartsWith(text, CoreText(v) + "-")
  {
    CoreText(v) + "-" + if v.prerelease.Some? then ChannelName(v.prerelease.value) else "undefined"
  }

  /** The short version is the rendered version without its build number. */
  lemma ShortenedVersionDropsBuild(v: Version)
    requires v.prerelease.Some?
    ensures GetVersionAsText(v) == ShortenedVersion(v) + "." + ConcatText(v.buildnumber)
  {
  }

  /** The id suffix is "alpha" exactly when the channel is alpha or the build
      number itself contains "alpha"; an rc or beta build otherwise gets "beta". */
  lemma ExtensionIdSuffixByChannel(v: Version)
    requires v.prerelease.Some?
    ensures ExtensionIdSuffix(v) == "alpha" <==>
              v.prerelease.value == Alpha || Contains(ConcatText(v.buildnumber), "alpha")
  {
    var core := CoreText(v);
    var build := ConcatText(v.buildnumber);
    var c := v.prerelease.value;
    var text := GetVersionAsText(v);
    if c == Alpha {
      var pre := core + "-";
      assert text == pre + "alpha" + ("." + build);
      assert text[|pre|..|pre| + 5] == "alpha";
      ContainsAt(text, "alpha", |pre|);
    } else {
      var p := core + "-" + ChannelName(c) + ".";
      assert text == p + build;
      assert NoStartWithin(p, "alpha") by {
        forall i | 0 <= i < |p|
          ensures p[i] != 'a' || (i + 1 < |p| && p[i + 1] != 'l')
        {
          if i < |core| {
            assert p[i] == core[i];
          } else {
            var tail := "-" + ChannelName(c) + ".";
            assert p == core + tail;
            assert p[i] == tail[i - |core|];
            assert i + 1 < |p| ==> p[i + 1] == tail[i + 1 - |core|];
          }
        }
      }
      ContainsSkipPrefix(p, build, "alpha");
    }
  }

  /** `updateExtensionManifest`: a release sets the version to "M.m.p" and
      makes the extension public; a prerelease sets the version to
      "M.m.p.<build>", appends the id suffix to the id and the rendered
      version to the name, makes the extension private and appends one
      "Preview" gallery flag. */
  method UpdateExtensionManifest(manifest: ExtensionManifest, v: Version)
    modifies manifest
    ensures v.prerelease.None? ==>
              manifest.version == CoreText(v) && manifest.public
              && manifest.id == old(manifest.id) && manifest.name == old(manifest.name)
              && manifest.galleryFlags == old(manifest.galleryFlags)
    ensures v.prerelease.Some? ==>
              manifest.version == PrereleaseExtensionVersion(v) && !manifest.public
              && manifest.id == old(manifest.id) + "-" + ExtensionIdSuffix(v)
              && manifest.name == old(manifest.name) + " (" + GetVersionAsText(v) + ")"
              && manifest.galleryFlags == old(manifest.galleryFlags) + ["Preview"]
  {
    manifest.version := CoreText(v);

    if v.prerelease.Some? {
      var versionAsText := GetVersionAsText(v);
      manifest.version := PrereleaseExtensionVersion(v);
      manifest.id := manifest.id + "-" + ExtensionIdSuffix(v);
      manifest.name := manifest.name + " (" + versionAsText + ")";
      manifest.public := false;
      manifest.galleryFlags := manifest.galleryFlags + ["Preview"];
    } else {
      manifest.public := true;
    }
  }

  /** `updateTaskManifest`: the task version numbers are set and the help text
      is prefixed with "v<text> - "; a prerelease also has its friendly name
      suffixed with the short version, its id replaced by `PrereleaseTaskId`,
      and `Prerelease` set to the undefined `version.Patch`. */
  method UpdateTaskManifest(manifest: TaskManifest, v: Version)
    modifies manifest, manifest.version
    ensures manifest.version == old(manifest.version)
    ensures manifest.version.Major == v.major && manifest.version.Minor == v.minor
            && manifest.version.Patch == v.patch
    ensures manifest.helpMarkDown == "v" + GetVersionAsText(v) + " - " + old(manifest.helpMarkDown)
    ensures v.prerelease.Some? ==>
              manifest.version.Prerelease == None
              && manifest.friendlyName == old(manifest.friendlyName) + " (" + ShortenedVersion(v) + ")"
              && manifest.id == PrereleaseTaskId
    ensures v.prerelease.None? ==>
              manifest.version.Prerelease == old(manifest.version.Prerelease)
              && manifest.friendlyName == old(manifest.friendlyName)
              && manifest.id == old(manifest.id)
  {
    var versionAsText := GetVersionAsText(v);

    manifest.version.Major := v.major;
    manifest.version.Minor := v.minor;
    manifest.version.Patch := v.patch;
    manifest.helpMarkDown := "v" + versionAsText + " - " + manifest.helpMarkDown;

    var shortenedVersion := ShortenedVersion(v);
    if v.prerelease.Some? {
      // `version.Patch` (capital P) is not a property of the version object.
      manifest.version.Prerelease := None;
      manifest.friendlyName := manifest.friendlyName + " (" + shortenedVersion + ")";
      manifest.id := PrereleaseTaskId;
    }
  }
}
