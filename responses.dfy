/** Response bodies shared by the check-in and ranking endpoints. */
module Responses {
  import opened Wrappers

  /** `CheckinStatusResponse`: whether the user may check in now, and why. */
  datatype CheckinStatusResponse = CheckinStatusResponse(
    canCheckin: bool, lastCheckinDate: Option<string>, lastCheckinFormatted: Option<string>,
    isWeekend: bool, alreadyCheckedToday: bool, reason: string, message: string, today: string)
}
