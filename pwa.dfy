/**
 * The installable-app helpers that are decisions over their inputs (src/utils/pwa.ts): the
 * user-agent classification of `getDeviceInfo` and the `requestNotificationPermission` ladder.
 */
module Pwa {
  import Text

  /** What `getDeviceInfo` reports. */
  datatype DeviceInfo = DeviceInfo(
    isIOS: bool,
    isAndroid: bool,
    isMobile: bool,
    isChrome: bool,
    isSafari: bool,
    isPWA: bool,
    userAgent: string)

  /**
   * `getDeviceInfo()` for the browser's `userAgent`, with the result of `isPWA()` passed in.
   * The `/Mobi|Android/i` test is case-insensitive; the others are case-sensitive.
   */
  function GetDeviceInfo(userAgent: string, isPWA: bool): (info: DeviceInfo)
    ensures info.isIOS <==>
      Text.Contains(userAgent, "iPad") || Text.Contains(userAgent, "iPhone") || Text.Contains(userAgent, "iPod")
    ensures info.isAndroid <==> Text.Contains(userAgent, "Android")
    ensures info.isMobile <==>
      Text.Contains(Text.ToLower(userAgent), "mobi") || Text.Contains(Text.ToLower(userAgent), "android")
    ensures info.isAndroid ==> info.isMobile
    ensures info.isChrome <==> Text.Contains(userAgent, "Chrome")
    ensures info.isSafari <==> Text.Contains(userAgent, "Safari") && !Text.Contains(userAgent, "Chrome")
    ensures !(info.isSafari && info.isChrome)
    ensures info.isPWA == isPWA && info.userAgent == userAgent
  {
    Text.ContainsToLower(userAgent, "Android");
    assert Text.ToLower("Android") == "android";
    var lower := Text.ToLower(userAgent);
    var isChrome := Text.Contains(userAgent, "Chrome");
    DeviceInfo(
      Text.Contains(userAgent, "iPad") || Text.Contains(userAgent, "iPhone") || Text.Contains(userAgent, "iPod"),
      Text.Contains(userAgent, "Android"),
      Text.Contains(lower, "mobi") || Text.Contains(lower, "android"),
      isChrome,
      Text.Contains(userAgent, "Safari") && !isChrome,
      isPWA,
      userAgent)
  }

  /** The `NotificationPermission` values. */
  datatype Permission = Granted | Denied | Default

  /** What `requestNotificationPermission` resolves to, and whether it asked the user. */
  datatype PermissionDecision = PermissionDecision(result: Permission, prompted: bool)

  /**
   * `requestNotificationPermission()`: `supported` is whether the browser has notifications,
   * `current` is `Notification.permission`, and `answer` is what the prompt would resolve to.
   */
  function RequestNotificationPermission(supported: bool, current: Permission, answer: Permission)
    : (d: PermissionDecision)
    ensures !supported ==> d == PermissionDecision(Denied, false)
    ensures supported && !current.Default? ==> d == PermissionDecision(current, false)
    ensures supported && current.Default? ==> d == PermissionDecision(answer, true)
  {
    if !supported then PermissionDecision(Denied, false)
    else if current == Granted then PermissionDecision(Granted, false)
    else if current == Denied then PermissionDecision(Denied, false)
    else PermissionDecision(answer, true)
  }

  /**
   * The user is asked only when notifications are supported and no decision was stored, and
   * "granted" comes back only from a stored grant or from the user granting at the prompt.
   */
  lemma PromptOnlyWhenUndecided(supported: bool, current: Permission, answer: Permission)
    ensures RequestNotificationPermission(supported, current, answer).prompted <==>
      supported && current.Default?
    ensures RequestNotificationPermission(supported, current, answer).result == Granted <==>
      supported && (current == Granted || (current.Default? && answer == Granted))
  {
  }
}
