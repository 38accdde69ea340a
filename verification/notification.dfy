/** The final step of the pipeline: the time entries of the response are
    reduced to attachments, and the Slack message is chosen: the
    "All hours entered" variant when no attachment remains, the "missing
    hours" variant otherwise. The message is only built here; posting it is
    not modelled. */
module Notification {
  import opened Entries
  import opened Report
  import opened TitleCasing

  /** A value that may be absent, as an undefined JSON field is. */
  datatype Option<+T> = None | Some(value: T)

  /** The configuration settings this step reads. */
  datatype Config = Config(botName: string, botIcon: string, schedule: string, minimumHours: int)

  /** The message text, reduced to what the model keeps of it: which variant
      it is and, for the missing-hours variant, the title-cased schedule that
      opens its second line. The formatted date range is not modelled. */
  datatype Text = AllHoursEntered(schedule: string) | MissingHours(heading: string)

  /** The message posted to the Slack webhook. */
  datatype Message = Message(username: string, iconUrl: string, text: Text, attachments: seq<Attachment>)

  /** Chooses the message for the computed attachments. */
  function Compose(cfg: Config, attachments: seq<Attachment>): (m: Message)
    ensures m.attachments == attachments
    ensures m.username == cfg.botName && m.iconUrl == cfg.botIcon
    ensures m.text.AllHoursEntered? <==> |attachments| == 0
    ensures m.text.AllHoursEntered? ==> m.text.schedule == cfg.schedule
    ensures m.text.MissingHours? ==> m.text.heading == TitleCase(cfg.schedule)
  {
    if |attachments| > 0 then
      Message(cfg.botName, cfg.botIcon, MissingHours(TitleCase(cfg.schedule)), attachments)
    else
      Message(cfg.botName, cfg.botIcon, AllHoursEntered(cfg.schedule), attachments)
  }

  /** `res.time_entries`, which is undefined when the response carries no
      entry list; `_.groupBy` of undefined groups nothing. */
  function EntriesOf(timeEntries: Option<seq<Entry>>): (es: seq<Entry>)
    ensures timeEntries.Some? ==> es == timeEntries.value
    ensures timeEntries.None? ==> es == []
  {
    match timeEntries
    case Some(es) => es
    case None => []
  }

  /** The whole pure pipeline from the response's entry list to the message:
      the all-clear variant exactly when every name that logged time reached
      the minimum, and always so when the response has no entry list. */
  function Run(cfg: Config, timeEntries: Option<seq<Entry>>): (m: Message)
    ensures m.username == cfg.botName && m.iconUrl == cfg.botIcon
    ensures m.text.AllHoursEntered?
            <==> forall n :: Occurs(EntriesOf(timeEntries), n) ==> Total(EntriesOf(timeEntries), n) >= cfg.minimumHours
    ensures m.text.AllHoursEntered? <==> m.attachments == []
    ensures timeEntries.None? ==> m.text == AllHoursEntered(cfg.schedule) && m.attachments == []
  {
    ReportEmptyExactly(EntriesOf(timeEntries), cfg.minimumHours);
    Compose(cfg, SumEntryHours(EntriesOf(timeEntries), cfg.minimumHours))
  }

  /** The all-clear message is sent exactly when every name that logged
      time reached the minimum, and the attachments are the report in
      both variants. */
  lemma RunAllClearExactly(cfg: Config, entries: seq<Entry>)
    ensures Run(cfg, Some(entries)).attachments == SumEntryHours(entries, cfg.minimumHours)
    ensures Run(cfg, Some(entries)).text.AllHoursEntered?
            <==> forall n :: Occurs(entries, n) ==> Total(entries, n) >= cfg.minimumHours
  {
    ReportEmptyExactly(entries, cfg.minimumHours);
  }

  /** A response without an entry list produces the all-clear message with
      no attachments, just as an empty list does. */
  lemma MissingListReadsAsAllClear(cfg: Config)
    ensures Run(cfg, None).text == AllHoursEntered(cfg.schedule)
    ensures Run(cfg, None).attachments == []
    ensures Run(cfg, None) == Run(cfg, Some([]))
  {
    ReportTotals([], cfg.minimumHours);
  }
}
