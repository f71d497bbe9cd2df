/**
 * The `nff` panel: the system facts as an ordered list of label/value rows,
 * the uptime split into days, hours and minutes, and the side-by-side
 * layout of the 19-line logo with those rows.
 */
module Neofetch {
  import opened Wrappers
  import opened Text

  const Cyan := "\U{1B}[36m"     // colorama Fore.CYAN
  const Green := "\U{1B}[32m"    // colorama Fore.GREEN
  const Reset := "\U{1B}[0m"     // colorama Style.RESET_ALL

  /** The logo that `get_windows_logo` returns, one string per printed line. */
  const WindowsLogo: seq<string> := [
      Cyan + "                                ..,",
      Cyan + "                    ....,,:;+ccllll",
      Cyan + "      ...,,+:;  cllllllllllllllllll",
      Cyan + ",cclllllllllll  lllllllllllllllllll",
      Cyan + "llllllllllllll  lllllllllllllllllll",
      Cyan + "llllllllllllll  lllllllllllllllllll",
      Cyan + "llllllllllllll  lllllllllllllllllll",
      Cyan + "llllllllllllll  lllllllllllllllllll",
      Cyan + "llllllllllllll  lllllllllllllllllll",
      Cyan + "                                    ",
      Cyan + "llllllllllllll  lllllllllllllllllll",
      Cyan + "llllllllllllll  lllllllllllllllllll",
      Cyan + "llllllllllllll  lllllllllllllllllll",
      Cyan + "llllllllllllll  lllllllllllllllllll",
      Cyan + "llllllllllllll  lllllllllllllllllll",
      Cyan + "`'ccllllllllll  lllllllllllllllllll",
      Cyan + "      `' \\\\*::  :ccllllllllllllllll",
      Cyan + "                       ````''*::cll",
      Cyan + "                                 ``"
  ]

  function Spaces(n: nat): (r: string)
    ensures |r| == n && forall i :: 0 <= i < |r| ==> r[i] == ' '
  {
    seq(n, _ => ' ')
  }

  /** The filler printed in place of a missing logo line. */
  const LogoFiller: string := Spaces(40)

  /** The gap between the logo column and the information column. */
  const Gap: string := Spaces(4)

  function Max(a: nat, b: nat): nat { if a < b then b else a }

  // ---------------------------------------------------------------- uptime

  /** `timedelta.seconds`: the part of a duration below one day. */
  type DaySeconds = s: int | 0 <= s < 86400

  /** `seconds // 3600`: the whole hours of the day part. */
  function UptimeHours(s: DaySeconds): (h: nat)
    ensures h <= 23
    ensures h * 3600 <= s < (h + 1) * 3600
  {
    s / 3600
  }

  /** `(seconds // 60) % 60`: the whole minutes left over after the hours. */
  function UptimeMinutes(s: DaySeconds): (m: nat)
    ensures m <= 59
    ensures UptimeHours(s) * 3600 + m * 60 <= s < UptimeHours(s) * 3600 + (m + 1) * 60
  {
    (s / 60) % 60
  }

  /**
   * The displayed days, hours and minutes add up to the uptime truncated to a
   * whole minute: less than a minute is dropped, nothing is added.
   */
  lemma UptimeTruncatesToMinute(days: int, s: DaySeconds)
    ensures var shown := days * 86400 + UptimeHours(s) * 3600 + UptimeMinutes(s) * 60;
            shown <= days * 86400 + s < shown + 60
  {
  }

  /** The `Uptime` value: `{days}d {hours}h {minutes}m`. */
  function UptimeText(days: int, s: DaySeconds): string {
    IntToString(days) + "d " + NatToString(UptimeHours(s)) + "h " + NatToString(UptimeMinutes(s)) + "m"
  }

  // ---------------------------------------------------------------- system facts

  /**
   * What `platform`, `psutil` and `getpass` report. The numbers that are
   * printed as floating point arrive already formatted with two decimals.
   */
  datatype SystemFacts = SystemFacts(
    system: string,          // platform.system()
    release: string,         // platform.release()
    node: string,            // platform.node()
    version: string,         // platform.version()
    uptimeDays: int,         // timedelta.days
    uptimeSeconds: DaySeconds,  // timedelta.seconds
    processor: string,       // platform.processor()
    cpuMHz: Option<string>,  // psutil.cpu_freq().current, when psutil reports one
    memoryUsedGB: string,    // psutil.virtual_memory().used in GiB
    memoryTotalGB: string,   // psutil.virtual_memory().total in GiB
    user: string)            // getpass.getuser()

  const InfoLabels: seq<string> := ["OS", "Host", "Kernel", "Uptime", "CPU", "CPU Frequency", "Memory", "User", "Shell"]

  /** A label as `get_system_info` keys it: coloured green, then reset. */
  function Label(name: string): string { Green + name + Reset }

  /** `get_system_info`: nine rows in a fixed order, each keyed by its coloured label. */
  function SystemInfo(f: SystemFacts): (info: seq<(string, string)>)
    ensures |info| == |InfoLabels| == 9
    ensures forall i :: 0 <= i < |info| ==> info[i].0 == Label(InfoLabels[i])
    ensures info[3].1 == UptimeText(f.uptimeDays, f.uptimeSeconds)
    ensures info[5].1 == (if f.cpuMHz.Some? then f.cpuMHz.value + "MHz" else "Unknown")
    ensures info[8].1 == "Cloudy Terminal"
  {
    [ (Label("OS"), f.system + " " + f.release),
      (Label("Host"), f.node),
      (Label("Kernel"), f.version),
      (Label("Uptime"), UptimeText(f.uptimeDays, f.uptimeSeconds)),
      (Label("CPU"), f.processor),
      (Label("CPU Frequency"), if f.cpuMHz.Some? then f.cpuMHz.value + "MHz" else "Unknown"),
      (Label("Memory"), f.memoryUsedGB + "GB / " + f.memoryTotalGB + "GB"),
      (Label("User"), f.user),
      (Label("Shell"), "Cloudy Terminal") ]
  }

  // ---------------------------------------------------------------- layout

  /** The logo column of row `i`: the logo line, or 40 spaces past the end of the logo. */
  function LogoCell(logo: seq<string>, i: nat): string {
    if i < |logo| then logo[i] else LogoFiller
  }

  /** The information column of row `i`: `{key}: {value}`, or nothing past the end of the rows. */
  function InfoCell(info: seq<(string, string)>, i: nat): string {
    if i < |info| then info[i].0 + ": " + info[i].1 else ""
  }

  /**
   * The rows `show_neofetch` prints between the leading newline and the
   * colour reset: as many as the longer of the two columns, each the logo
   * cell, the gap, and the information cell.
   */
  function Layout(logo: seq<string>, info: seq<(string, string)>): seq<string> {
    seq(Max(|logo|, |info|), i requires 0 <= i => LogoCell(logo, i) + Gap + InfoCell(info, i))
  }

  /**
   * The block is line-aligned: every row starts with its logo line (or the
   * 40-space filler), then the four-space gap, then exactly its information
   * line (or nothing), and there is one row per line of the longer column.
   */
  lemma LayoutColumns(logo: seq<string>, info: seq<(string, string)>, i: nat)
    requires i < Max(|logo|, |info|)
    ensures |Layout(logo, info)| == Max(|logo|, |info|)
    ensures i < |logo| ==> logo[i] <= Layout(logo, info)[i]
    ensures |logo| <= i ==> 40 <= |Layout(logo, info)[i]| && Layout(logo, info)[i][..40] == LogoFiller
    ensures var row, w := Layout(logo, info)[i], |LogoCell(logo, i)|;
      w + |Gap| <= |row| && row[w..w + |Gap|] == Gap && row[w + |Gap|..] == InfoCell(info, i)
    ensures i < |info| ==> Layout(logo, info)[i][|LogoCell(logo, i)| + 4..] == info[i].0 + ": " + info[i].1
    ensures |info| <= i ==> |Layout(logo, info)[i]| == |LogoCell(logo, i)| + 4
  {
    var row := Layout(logo, info)[i];
    assert row == LogoCell(logo, i) + Gap + InfoCell(info, i);
  }

  /** `show_neofetch`'s counting loop: one printed row per index up to the longer column. */
  method NeofetchRows(logo: seq<string>, info: seq<(string, string)>) returns (rows: seq<string>)
    ensures rows == Layout(logo, info)
  {
    rows := [];
    var n := Max(|logo|, |info|);
    for i := 0 to n
      invariant rows == Layout(logo, info)[..i]
    {
      var logoLine := if i < |logo| then logo[i] else LogoFiller;
      var infoLine := if i < |info| then info[i].0 + ": " + info[i].1 else "";
      assert Layout(logo, info)[..i + 1] == Layout(logo, info)[..i] + [logoLine + Gap + infoLine];
      rows := rows + [logoLine + Gap + infoLine];
    }
  }

  /**
   * With the real logo and the nine information rows the panel has 19 rows:
   * the first nine carry the facts and the other ten end in the bare gap.
   */
  lemma PanelWithWindowsLogo(f: SystemFacts)
    ensures |Layout(WindowsLogo, SystemInfo(f))| == 19
    ensures forall i :: 9 <= i < 19 ==> Layout(WindowsLogo, SystemInfo(f))[i] == WindowsLogo[i] + Gap
  {
    var rows := Layout(WindowsLogo, SystemInfo(f));
    forall i | 9 <= i < 19 ensures rows[i] == WindowsLogo[i] + Gap {
      LayoutColumns(WindowsLogo, SystemInfo(f), i);
      assert rows[i] == rows[i][..|WindowsLogo[i]|] + rows[i][|WindowsLogo[i]|..];
    }
  }

  /**
   * The arguments of the `print` calls `show_neofetch` makes, in order: a
   * newline, one row per panel line, and the colour reset followed by a
   * newline. Each `print` adds its own line end, so the panel appears after
   * two empty lines and is followed by one.
   */
  function NeofetchLines(f: SystemFacts): seq<string> {
    ["\n"] + Layout(WindowsLogo, SystemInfo(f)) + [Reset + "\n"]
  }

  /** `show_neofetch`: prints the panel for the facts gathered at call time. */
  method ShowNeofetch(f: SystemFacts) returns (lines: seq<string>)
    ensures lines == NeofetchLines(f)
  {
    var rows := NeofetchRows(WindowsLogo, SystemInfo(f));
    lines := ["\n"] + rows + [Reset + "\n"];
  }
}
