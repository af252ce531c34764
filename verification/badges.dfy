/**
 * Badge classification and badge colours (src/utils/badges.ts): a node's status
 * and its uptime, reputation and performance scores each pick one of four
 * badge kinds, and each kind has a background, a border and a text colour.
 */
module Badges {
  import opened Node

  datatype Badge = Success | Warning | Error | Info

  /** How good a badge is: error below warning below success. */
  function Rank(b: Badge): nat {
    match b
    case Error => 0
    case Warning => 1
    case Success => 2
    case Info => 1
  }

  /** `getStatusBadge`: active is success, syncing warning, inactive error. */
  function StatusBadge(s: Status): (b: Badge)
    ensures b == Success <==> s == Active
    ensures b == Warning <==> s == Syncing
    ensures b == Error <==> s == Inactive
    ensures b != Info
  {
    match s
    case Active => Success
    case Inactive => Error
    case Syncing => Warning
  }

  /** Success from `good` up, warning from `fair` up, error below. */
  function Grade(x: real, good: real, fair: real): (b: Badge)
    ensures b == Success <==> x >= good
    ensures b == Warning <==> fair <= x < good
    ensures b == Error <==> x < good && x < fair
  {
    if x >= good then Success else if x >= fair then Warning else Error
  }

  /** `getUptimeBadge`: success from 98, warning from 95. */
  function UptimeBadge(uptime: real): (b: Badge)
    ensures b == Success <==> uptime >= 98.0
    ensures b == Warning <==> 95.0 <= uptime < 98.0
    ensures b == Error <==> uptime < 95.0
  {
    Grade(uptime, 98.0, 95.0)
  }

  /** `getReputationBadge`: success from 8, warning from 5. */
  function ReputationBadge(reputation: real): (b: Badge)
    ensures b == Success <==> reputation >= 8.0
    ensures b == Warning <==> 5.0 <= reputation < 8.0
    ensures b == Error <==> reputation < 5.0
  {
    Grade(reputation, 8.0, 5.0)
  }

  /** `getPerformanceBadge`: success from 90, warning from 75. */
  function PerformanceBadge(performance: real): (b: Badge)
    ensures b == Success <==> performance >= 90.0
    ensures b == Warning <==> 75.0 <= performance < 90.0
    ensures b == Error <==> performance < 75.0
  {
    Grade(performance, 90.0, 75.0)
  }

  /** A higher score never earns a worse badge, for any thresholds in order. */
  lemma GradeMonotone(x: real, y: real, good: real, fair: real)
    requires fair <= good && x <= y
    ensures Rank(Grade(x, good, fair)) <= Rank(Grade(y, good, fair))
  {
  }

  /** The three score badges are monotone. */
  lemma ScoreBadgesMonotone(x: real, y: real)
    requires x <= y
    ensures Rank(UptimeBadge(x)) <= Rank(UptimeBadge(y))
    ensures Rank(ReputationBadge(x)) <= Rank(ReputationBadge(y))
    ensures Rank(PerformanceBadge(x)) <= Rank(PerformanceBadge(y))
  {
    GradeMonotone(x, y, 98.0, 95.0);
    GradeMonotone(x, y, 8.0, 5.0);
    GradeMonotone(x, y, 90.0, 75.0);
  }

  // ---------------------------------------------------------------- colours

  /** `getBadgeColor`: the background. */
  function BadgeColor(b: Badge, dark: bool): (r: string)
    ensures |r| > 5 && r[..5] == "rgba("
    ensures (dark || b != Success) <==> r[|r| - 5..] == "0.15)"
  {
    match b
    case Success => if dark then "rgba(34, 197, 94, 0.15)" else "rgba(17, 223, 92, 0.3)"
    case Warning => "rgba(230, 129, 97, 0.15)"
    case Error => "rgba(255, 84, 89, 0.15)"
    case Info => "rgba(119, 124, 124, 0.15)"
  }

  /** `getBadgeBorderColor`: the border, the same in both modes. */
  function BorderColor(b: Badge): (r: string)
    ensures |r| > 20 && r[..20] == "var(--chakra-colors-" && r[|r| - 1] == ')'
  {
    match b
    case Success => "var(--chakra-colors-green-500)"
    case Warning => "var(--chakra-colors-orange-500)"
    case Error => "var(--chakra-colors-red-500)"
    case Info => "var(--chakra-colors-gray-400)"
  }

  /** `getBadgeTextColor`: the text. */
  function TextColor(b: Badge, dark: bool): (r: string)
    ensures r == "white" <==> dark && (b == Warning || b == Error)
    ensures r == BorderColor(Error) <==> !dark && (b == Warning || b == Error)
  {
    match b
    case Success => if dark then "var(--chakra-colors-green-500)" else "var(--chakra-colors-green-900)"
    case Warning => if dark then "white" else "var(--chakra-colors-red-500)"
    case Error => if dark then "white" else "var(--chakra-colors-red-500)"
    case Info => "var(--chakra-colors-gray-400)"
  }

  /**
   * Of the backgrounds only success changes with dark mode, and in each mode the
   * four kinds have four different backgrounds.
   */
  lemma OnlySuccessBackgroundFollowsMode(b: Badge, c: Badge, dark: bool)
    ensures BadgeColor(b, true) == BadgeColor(b, false) <==> b != Success
    ensures BadgeColor(b, dark) == BadgeColor(c, dark) <==> b == c
  {
  }

  /** Borders tell all four kinds apart. */
  lemma BordersDistinct(b: Badge, c: Badge)
    ensures BorderColor(b) == BorderColor(c) <==> b == c
  {
  }

  /**
   * Warning and error text look the same in either mode; in light mode their text
   * is red, the same as the error border; only info text ignores the mode.
   */
  lemma WarningTextLikeError(dark: bool, b: Badge)
    ensures TextColor(Warning, dark) == TextColor(Error, dark)
    ensures TextColor(Warning, false) == BorderColor(Error)
    ensures TextColor(b, true) == TextColor(b, false) <==> b == Info
  {
  }
}
