/** The static data the timeline widget shows: an ordered, non-empty list of
    periods, each a titled year range with its dated events. The list is
    loaded once and never changes while the widget lives. */
module Periods {

  /** A value that may be absent (the label of an inactive dot, the tween of
      an index change that did not happen). */
  datatype Option<+T> = None | Some(value: T)

  /** One dated event shown in the carousel of its period. */
  datatype Event = Event(year: int, text: string)

  /** A titled year range and its events. Years are taken to be whole
      numbers, so `int` stands for the JavaScript number; the model only
      copies them and does no arithmetic on them. */
  datatype Period = Period(from: int, to: int, title: string, events: seq<Event>)

  /** The timeline: a fixed ordered list of periods, never empty. */
  type Timeline = ps: seq<Period> | |ps| >= 1 witness [Period(0, 0, "", [])]

  /** `f`/`t` is the year range of one of the periods. */
  ghost predicate IsPeriodYears(ps: Timeline, f: int, t: int)
  {
    exists j :: 0 <= j < |ps| && ps[j].from == f && ps[j].to == t
  }
}
