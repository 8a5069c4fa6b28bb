# easy_table in Dafny

This is a model of `easy_table::Builder<T>`, a small Rust builder that renders records as comma-separated text. The builder collects:

- an ordered list of columns, each a header `name` and an accessor name (the source's `method` field);
- an ordered list of row objects.

`run` renders them. It writes a header line, then one line per row, and removes the final newline.

The model has two files:

- `delimited.dfy` (module `Delimited`) holds the string operations the renderer relies on:
  - `Pop`, which is `String::pop` and leaves an empty string unchanged;
  - `Join`, which joins with a separator;
  - `Terminated`, the text a "push the part, push a separator" loop accumulates;
  - `Split`, the inverse of `Join`.
- `easy_table.dfy` (module `EasyTable`) has three parts:
  - the class `Builder<T>`, whose fields `cols: seq<Column>` and `rows: seq<T>` are appended to in place;
  - the imperative `Run`, `WriteCols`, `WriteRows` and `WriteRow`, which thread the output `String` through `for` loops with `push_str`, `push` and `pop`;
  - `Table`, the pure specification these methods are proved against. `Run` returns exactly `Table(call, cols, rows)`.

The source's `call!` macro looks up a field by the column's method name at run time. Here that lookup is a parameter `call: (T, string) -> string`, which is applied to the row and to the column's accessor name.

`Table` agrees with the code, not with a reading that gives one line per row. With no columns the code returns `""` for any number of rows, because each row's `pop` takes away the newline pushed just before it. A line-per-row rendering would give one newline per row instead. `ZeroColumnsDropRowLines` proves both facts.

## Model

| member | source | states |
|---|---|---|
| EasyTable.Builder.constructor | src/lib.rs:15-17 | a new builder has no columns and no rows |
| EasyTable.Builder.AddColumn | src/lib.rs:28-32 | exactly one `Column(name, accessor)` is appended at the end of `cols`; `rows` is unchanged; the handle returned is the builder itself, so chained and unchained calls reach the same state |
| EasyTable.Builder.AddRow | src/lib.rs:34-37 | the object is appended at the end of `rows`; `cols` is unchanged; the handle returned is the builder itself |
| EasyTable.Builder.WriteCols | src/lib.rs:39-46 | with columns, the buffer gains the comma-joined headers and a newline (the pop removes exactly the last comma); with no columns, the pop acts on the buffer's previous contents (a no-op on an empty buffer) before the newline; either way the buffer ends in a newline |
| EasyTable.Builder.WriteRow | src/lib.rs:50-55 | one pass of the row loop: with columns, the buffer gains the row's comma-joined accessor values and a newline; with no columns, its last character is replaced by a newline |
| EasyTable.Builder.WriteRows | src/lib.rs:48-57 | with columns, the buffer gains every row's line, each followed by a newline, in insertion order; with no columns and at least one row, only the last character is replaced by a newline; a buffer ending in a newline still ends in one |
| EasyTable.Builder.Run | src/lib.rs:19-26 | the result equals `Table(call, cols, rows)`; `Run` modifies nothing, so repeated calls with no mutation in between give identical text |
| EasyTable.HeaderOnly | src/lib.rs:39-46 | with at least one column and no rows, the text is the headers joined by commas, with no trailing comma or newline |
| EasyTable.AppendRow | src/lib.rs:48-57 | adding one row keeps the earlier text and appends a newline and that row's comma-joined values: rows appear in insertion order |
| EasyTable.AppendRows | src/lib.rs:49-56 | rows added after others render after them, as a newline followed by their lines joined by newlines |
| EasyTable.ZeroColumnsDropRowLines | src/lib.rs:44-55 | with no columns the text is empty for any number of rows, while joining one empty line per row would give one newline per row |
| EasyTable.ParseTable | src/lib.rs:39-57 | when no header or value contains a comma or newline, splitting the text at newlines and then at commas gives back the headers and each row's values in order |
| EasyTable.NoEscaping | src/lib.rs:51-52 | values are written without quoting: one row holding `x\ny` renders the same as the two rows `x` and `y` |
| EasyTable.RowObjectsTable | src/lib.rs:103-110 | the two-column, two-row example table is `foo,bar\nxyz,abc\n123,456` |
| EasyTable.NoInputExample | src/lib.rs:72-73 | a fresh builder runs to `""` |
| EasyTable.ColumnNamesExample | src/lib.rs:82-87 | chained columns `foo` and `bar` with no rows run to `foo,bar` |
| EasyTable.RowObjectsExample | src/lib.rs:94-110 | the builder with the example's columns and two row objects runs to `foo,bar\nxyz,abc\n123,456` |
| Delimited.PopTerminated | src/lib.rs:41-44 | after each part has been pushed with a separator, one pop leaves exactly the parts joined by that separator after the earlier contents |
| Delimited.TerminatedIsJoined | src/lib.rs:40-43 | the text accumulated by the push loop is the joined parts plus one trailing separator |
| Delimited.SplitJoin | src/lib.rs:39-57 | splitting the joined text at the separator gives back the parts, provided no part contains the separator |

## Left out

- The `call!` macro (src/lib.rs:7-11) is not modelled as a lookup. Each accessor is the parameter `call`, applied to the row and the column's accessor name. A failing accessor therefore cannot be modelled: `call` is total.
- The `&mut Builder<T>` return value is modelled as a returned handle equal to `this`. Borrowing and lifetimes are not modelled.
- Rust `String`s hold UTF-8 text, and `pop` removes one `char`. The model's strings are sequences of `char`, and `Pop` removes the last element. Byte lengths and encoding are not modelled.
- `WriteRow` is the body of the outer loop of `write_rows`, split into its own method. The order of the pushes and pops is the source's.
