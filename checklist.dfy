/**
  The checklist records the exporter reads (the `Checklist` and
  `ChecklistItem` classes of the core models), reduced to the fields the
  layout uses.
*/
module Checklists {
  import opened Text

  /**
    One line of a checklist. `description` is declared non-nullable and
    defaults to the empty string; `group` is nullable, and a missing or blank
    group is only normalised when the checklist is rendered.
  */
  datatype ChecklistItem = ChecklistItem(name: string, description: string, group: Option<string>)

  /**
    A checklist with its items in the order the repository returned them.
    `kind` is the checklist's free-text Type; `created` and `updated` are the
    stored instants, kept as opaque numbers.
  */
  datatype Checklist = Checklist(
    name: string,
    kind: string,
    created: int,
    updated: int,
    items: seq<ChecklistItem>)
}
