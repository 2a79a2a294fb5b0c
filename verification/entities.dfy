/** The rows the pages read, with the related names their queries join in.
    Ids are strings; `created_at` is kept as a number that orders like the
    timestamp. */
module Entities {
  import opened Wrappers
  import opened Dates

  /** An `activities` row with its supporter, service user, skill, time
      slot and status names. */
  datatype Activity = Activity(
    id: string,
    activityDate: CalDate,
    notes: Option<string>,
    supporterId: string,
    serviceUserId: string,
    skillId: string,
    timeSlotId: string,
    statusId: string,
    supporterName: string,
    serviceUserName: string,
    skillName: string,
    timeSlotName: string,
    statusName: string)

  datatype SkillRef = SkillRef(id: string, name: string, category: Option<string>)

  datatype SlotRef = SlotRef(id: string, displayName: string)

  /** A `supporters` row with the skills and time slots joined through
      `supporter_skills` and `supporter_schedules`. */
  datatype Supporter = Supporter(
    id: string,
    name: string,
    phone: Option<string>,
    email: Option<string>,
    address: Option<string>,
    area: Option<string>,
    status: Option<string>,
    notes: Option<string>,
    createdAt: int,
    skills: seq<SkillRef>,
    schedules: seq<SlotRef>)

  /** A `skills` row. */
  datatype Skill = Skill(id: string, name: string, category: Option<string>, isActive: Option<bool>)

  /** An `activity_statuses` row. */
  datatype ActivityStatus = ActivityStatus(id: string, name: string, description: Option<string>)
}
