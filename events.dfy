/** The `Event` record of the API (app.py, class Event). */
module Events {

  /** An event: six free-text attributes, none of them validated beyond being text. */
  datatype Event = Event(
    title: string,
    description: string,
    date: string,
    time: string,
    location: string,
    cost: string)

  /** No attribute holds a line break, so each one fits on one line of the text mirror. */
  predicate SingleLine(e: Event)
  {
    && '\n' !in e.title
    && '\n' !in e.description
    && '\n' !in e.date
    && '\n' !in e.time
    && '\n' !in e.location
    && '\n' !in e.cost
  }
}
