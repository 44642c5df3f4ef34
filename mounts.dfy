/**
 * Finding where a device is mounted: the output of `findmnt` when it succeeds,
 * otherwise the second field of the first `/proc/mounts` line whose first field is
 * the device.
 */
module Mounts {
  import opened Wrappers
  import opened Text

  /** `line.split()`: the whitespace-separated fields of a line. */
  function Fields(line: string): (f: seq<string>)
    ensures forall w :: w in f ==> IsWord(w, Whitespace)
  {
    Tokens(line, Whitespace)
  }

  /** The line describes `device`: at least two fields, the first being the device. */
  predicate Describes(line: string, device: string)
  {
    |Fields(line)| >= 2 && Fields(line)[0] == device
  }

  /** Line `i` is the first line that describes `device`. */
  ghost predicate IsFirstMountLine(lines: seq<string>, device: string, i: int)
  {
    0 <= i < |lines| && Describes(lines[i], device) &&
    forall j :: 0 <= j < i ==> !Describes(lines[j], device)
  }

  /** How callers test a mount point (`if not mount_point`): present and non-empty. */
  predicate Mounted(mountPoint: Option<string>)
  {
    mountPoint.Some? && mountPoint.value != ""
  }

  /** The `/proc/mounts` scan of `get_mount_point`. */
  method LookupProcMounts(device: string, lines: seq<string>) returns (r: Option<string>)
    ensures r.None? <==> forall i :: 0 <= i < |lines| ==> !Describes(lines[i], device)
    ensures r.Some? ==> exists i :: IsFirstMountLine(lines, device, i) && r.value == Fields(lines[i])[1]
    ensures r.Some? ==> IsWord(r.value, Whitespace)
  {
    for i := 0 to |lines|
      invariant forall j :: 0 <= j < i ==> !Describes(lines[j], device)
    {
      var parts := Fields(lines[i]);
      if |parts| >= 2 && parts[0] == device {
        assert IsFirstMountLine(lines, device, i);
        assert parts[1] in parts;
        return Some(parts[1]);
      }
    }
    return None;
  }

  /** `get_mount_point(device)`. `findmnt` is the trimmed standard output of
      `findmnt -n -o TARGET device` when that command ran and exited with 0, and
      `None` otherwise; `procMounts` is the lines of `/proc/mounts`, or `None` when
      the file cannot be read. */
  method GetMountPoint(device: string, findmnt: Option<string>, procMounts: Option<seq<string>>)
    returns (r: Option<string>)
    ensures findmnt.Some? ==> r == Some(Strip(findmnt.value))
    ensures findmnt.None? && procMounts.None? ==> r.None?
    ensures findmnt.None? && procMounts.Some? ==>
      (r.None? <==> forall i :: 0 <= i < |procMounts.value| ==> !Describes(procMounts.value[i], device))
    ensures findmnt.None? && procMounts.Some? && r.Some? ==>
      exists i :: IsFirstMountLine(procMounts.value, device, i) && r.value == Fields(procMounts.value[i])[1]
  {
    if findmnt.Some? {
      return Some(Strip(findmnt.value));
    }
    if procMounts.None? {
      return None;
    }
    r := LookupProcMounts(device, procMounts.value);
  }
}
