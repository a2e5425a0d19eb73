# Patient record store

A Dafny model of the backend of a small clinical tool. The tool keeps
patients keyed by id. Each patient has an observed response, a predicted
response and 4776 protein expression levels. The prediction comes from a
fixed two-threshold decision tree over proteins 3698 and 3259.

The collection can be:

- loaded from its own comma-separated file (`readFile`);
- extended from an import file, with a line-numbered error report (`addPatientsFromFile`);
- queried, edited and listed by numeric id (`getPatient`, `removePatient`, `setResultForPatient`, `getIds`);
- rendered as text (`toString`) and saved (`doWrite`).

Modules:

- `Predictor`: the decision tree of `src/backend/Predictor.java`.
- `JavaText`: the Java library behaviour the store depends on:
  - `String.split(",")`, which drops trailing empty fields;
  - `Integer.parseInt`, with its sign, digit and 32-bit rules;
  - `""+i`;
  - `Collections.sort` on Integers.
- `Patients`: the value `Record` of a patient, its text rendering, and the mutable class `Patient` of `src/backend/Patient.java`.
- `CollectionCodec`: the saved line format (`response,prediction,id,p1,...,p4776,`), and what `readFile` does to a sequence of lines, as functions on values.
- `ImportSpec`: what `addPatientsFromFile` does to a sequence of lines, as a left fold:
  - a map of records;
  - the list of errors;
  - the 1-based line counter;
  - an "aborted" flag for the exception that ends the loop.
- `Store`: the class `PatientCollection`:
  - its field `patientMap` is changed in place by put and remove;
  - the ghost field `records` is the map of current patient values;
  - `Valid()` ties `records` to `patientMap`, as long as the patient objects change only through the store's own methods;
  - each loop of the Java class is a loop here, proved against the functions of `CollectionCodec` and `ImportSpec`.
- `Project1Backend`: the earlier copy under `Project1/backend`. Its `id` is a `const`, because that copy has no id setter.

Modelling choices:

- Files are sequences of lines.
- Doubles are `real`.
- The two text conversions of doubles are parameters:
  - `show` is `Double.toString`;
  - `parse` is `Double.parseDouble`, where `None` is the `NumberFormatException`.
- The round-trip lemmas assume something only about the protein values actually written (`TextInverseOn`, part of `Persistable`):
  - `show` prints each of them as a non-empty field without a comma or a line break;
  - `parse` reads that field back as the same value.
- They also assume the id and both labels hold no comma and no line break, since a line break would split the saved line in two when it is read back.
- The HashMap's iteration order is a ghost out-parameter `order`. It is proved to list every key exactly once (`Enumerates`).

Behaviours of the code worth knowing, which the model reproduces:

- A protein field that is not a number ends the import, as the catch block around the whole loop does. Earlier lines stay imported. Later lines are never read, and the report returned is the one built so far.
- A saved file with a bad line leaves the records read before that line, and the rest of the file is not loaded by that read. `readFile` then reads the classpath resource of the same name; when that resource is absent too, nothing more is loaded. That second read is not modelled (see "Left out").
- `toString` lists patients in HashMap order, not by numeric id.
- `getIds` throws on an id that is not a 32-bit decimal. Here that is `None`.

## Model

| member | source | states |
|---|---|---|
| Predictor.Predict | src/backend/Predictor.java:22-32 | the result is always "predDP" or "predCR", and it is "predCR" exactly when p1 > 20.903959 and p2 <= 22.058599 |
| Predictor.LowP1IgnoresP2 | src/backend/Predictor.java:23-24 | at or below 20.903959 on protein 3698 the result is "predDP", whatever protein 3259 is |
| Predictor.HighP1SplitsOnP2 | src/backend/Predictor.java:25-30 | above the first threshold, p2 <= 22.058599 (inclusive) gives "predCR" and p2 above it gives "predDP" |
| Predictor.CompleteResponseMonotone | src/backend/Predictor.java:22-32 | raising protein 3698 or lowering protein 3259 never turns "predCR" into "predDP" |
| Patients.Render | src/backend/Patient.java:97-102 | the text starts with "[Id] " followed by the id and ends with a line break |
| Patients.RenderIsOneLine | src/backend/Patient.java:97-102 | when no printed part holds a line break, the text holds exactly one line break |
| Patients.LineBreaksAppend | src/backend/PatientCollection.java:135-139 | line breaks of a concatenation add up, as toString concatenates the patients' texts |
| Patients.ImportedRecord | src/backend/Patient.java:34-40 | the import-path record: id and proteins as given, response "unk", and a prediction that is "predDP" or "predCR", "predCR" exactly when proteins 3698 and 3259 lie in the complete-response region |
| Patients.NoLineBreaks | src/backend/Patient.java:97-102 | a string without '\n' counts zero line breaks |
| Patients.Patient.FromImport | src/backend/Patient.java:34-40 | id and proteins as given, response "unk", prediction Predict(proteins[3697], proteins[3258]) |
| Patients.Patient.FromPersisted | src/backend/Patient.java:50-56 | all four fields taken verbatim; nothing recomputed |
| Patients.Patient.PredictResponse | src/backend/Patient.java:61-63 | only the prediction changes, to Predict of 0-based proteins 3697 and 3258; needs at least 3698 proteins |
| Patients.Patient.SetId | src/backend/Patient.java:65-67 | only the id changes |
| Patients.Patient.SetResponse | src/backend/Patient.java:77-79 | only the response changes |
| Patients.Patient.SetProteins | src/backend/Patient.java:85-87 | only the protein vector changes |
| Patients.Patient.SetPredict | src/backend/Patient.java:89-91 | only the prediction changes |
| Patients.Patient.ToString | src/backend/Patient.java:97-102 | starts with "[Id] " and the id, ends with a line break, and is one line when no printed part holds a line break |
| JavaText.Fields | src/backend/PatientCollection.java:98 | the comma-separated fields of a string, empty ones included: comma-free, and joined back with commas they give the string |
| JavaText.DropTrailingEmpty | src/backend/PatientCollection.java:98 | a prefix of the fields with no empty last field, every dropped field being empty |
| JavaText.Split | src/backend/PatientCollection.java:152 | split(","): a comma-free string is its own only field; otherwise the fields with the trailing empty ones dropped |
| JavaText.JoinTerminatedSnoc | src/backend/PatientCollection.java:219-224 | writing one more field extends the line by the field and a comma |
| JavaText.FieldsAfterComma | src/backend/PatientCollection.java:152 | a comma-free field followed by a comma splits off as the first field |
| JavaText.FieldsOfTerminated | src/backend/PatientCollection.java:152 | the fields of a comma-terminated line are the written fields and one trailing empty field |
| JavaText.SplitTerminated | src/backend/PatientCollection.java:152 | split of comma-terminated comma-free fields with a non-empty last field gives those fields back |
| JavaText.ParseInt | src/backend/PatientCollection.java:75 | Integer.parseInt: a success is always within the 32-bit range |
| JavaText.DigitChar | src/backend/PatientCollection.java:80 | the character of a decimal digit has that digit's value |
| JavaText.NatToString | src/backend/PatientCollection.java:80 | the decimal spelling of a natural number: non-empty, digits only, no leading zero, with that value |
| JavaText.IntToString | src/backend/PatientCollection.java:80 | ""+i: non-empty, and it starts with a minus sign exactly when i is negative |
| JavaText.IntToStringDigits | src/backend/PatientCollection.java:80 | after the optional minus sign come only digits, and they spell the absolute value of i |
| JavaText.ParseIntToString | src/backend/PatientCollection.java:75-80 | parsing the printed form of any 32-bit int gives that int back |
| JavaText.CanonicalInjective | src/backend/PatientCollection.java:75-80 | two ids in canonical form with the same value are the same id |
| JavaText.Insert | src/backend/PatientCollection.java:77 | inserting into a sorted list keeps it sorted and adds exactly that element |
| JavaText.SortAsc | src/backend/PatientCollection.java:77 | Collections.sort: the result is sorted ascending and is a permutation of its input |
| CollectionCodec.ParseAll | src/backend/PatientCollection.java:153-156 | succeeds exactly when every field parses, giving the parsed values in order |
| CollectionCodec.LineFields | src/backend/PatientCollection.java:218-224 | the fields doWrite writes: three text fields, then one per protein |
| CollectionCodec.EncodeLine | src/backend/PatientCollection.java:218-225 | a saved line is non-empty and ends with a comma, since every field written is followed by one |
| CollectionCodec.DecodeLine | src/backend/PatientCollection.java:152-157 | a line that reads gives a record with the id of field 2 and exactly 4776 proteins, and has at least 4779 fields |
| CollectionCodec.DecodeEncode | src/backend/PatientCollection.java:152-157 | reading the line doWrite writes for a patient whose texts hold no comma or line break, and whose proteins print and parse back, gives that patient back |
| CollectionCodec.DecodeLines | src/backend/PatientCollection.java:151-152 | one decoded entry per line |
| CollectionCodec.DecodeLinesAt | src/backend/PatientCollection.java:151-152 | entry i is the decoding of line i |
| CollectionCodec.LoadPrefixDecoded | src/backend/PatientCollection.java:151-159 | reading lines one at a time agrees with the fold over the decoded lines |
| CollectionCodec.LoadSnoc | src/backend/PatientCollection.java:151-159 | one more decoded line is one more load step |
| CollectionCodec.LoadPrefixAll | src/backend/PatientCollection.java:151-159 | reading every line one at a time is the load |
| CollectionCodec.LoadPrefixAborted | src/backend/PatientCollection.java:160 | once an exception ended the read, the load is what was read before it |
| CollectionCodec.LoadWellFormed | src/backend/PatientCollection.java:151-159 | whatever the lines, each loaded record is filed under its own id and has 4776 proteins |
| CollectionCodec.LoadAppend | src/backend/PatientCollection.java:151-160 | a readable line puts its patient under its id, replacing an earlier one; an unreadable line ends the read and nothing after it counts |
| CollectionCodec.AbortedLoadStays | src/backend/PatientCollection.java:160 | after an exception, further lines change nothing |
| CollectionCodec.EncodeAll | src/backend/PatientCollection.java:218-226 | one saved line per key of the iteration order |
| CollectionCodec.RestrictAgrees | src/backend/PatientCollection.java:158 | putting the entries of listed keys gives exactly those keys with their entries |
| CollectionCodec.SaveLoadRoundTrip | src/backend/PatientCollection.java:209-226 | loading the lines saved from a well-formed collection of such patients, in any iteration order, gives back the same collection |
| CollectionCodec.RestrictAll | src/backend/PatientCollection.java:158 | putting every entry of a map, in any order, rebuilds the map |
| CollectionCodec.WrittenFieldsSplit | src/backend/PatientCollection.java:219-224 | the fields written for such a patient hold no comma and the last one is not empty, so split gives them all back |
| CollectionCodec.WrittenProteinsParse | src/backend/PatientCollection.java:153-156 | the written protein fields parse back to the patient's proteins |
| CollectionCodec.DecodeEncodedLines | src/backend/PatientCollection.java:152-158 | each saved line decodes to the record of its key |
| CollectionCodec.LoadEncoded | src/backend/PatientCollection.java:151-159 | loading decoded saved lines puts each key's record, without aborting |
| CollectionCodec.LoadStep | src/backend/PatientCollection.java:152-160 | one line of readFile: the read ends exactly when it had already ended or the line does not decode; no id is ever dropped, and the only id it can add is the decoded patient's |
| CollectionCodec.Load | src/backend/PatientCollection.java:142-160 | whatever the lines, every loaded patient is filed under its own id and has 4776 proteins |
| CollectionCodec.LoadLinesWellFormed | src/backend/PatientCollection.java:151-159 | every line that decodes gives 4776 proteins, so the fold over the decoded lines is well formed |
| ImportSpec.Message | src/backend/PatientCollection.java:101-107 | each error message is non-empty and ends with a line break |
| ImportSpec.Report | src/backend/PatientCollection.java:101-107 | the report is "" exactly when there is no error, and otherwise ends with a line break |
| ImportSpec.ReportSnoc | src/backend/PatientCollection.java:101-107 | each error appends exactly its message to the report |
| ImportSpec.ReportEmptyIffNoErrors | src/backend/PatientCollection.java:90-130 | the report is "" exactly when there is no error |
| ImportSpec.ReadLines | src/backend/PatientCollection.java:96-98 | one classified line per line of the file |
| ImportSpec.ReadLinesAt | src/backend/PatientCollection.java:96-98 | entry i is the classification of line i |
| ImportSpec.ReadLine | src/backend/PatientCollection.java:98-114 | a wrong field count exactly when split gives other than 4777 fields; a candidate's id is field 0, and its proteins are present exactly when every later field parses |
| ImportSpec.Apply | src/backend/PatientCollection.java:98-118 | one pass of the loop: no record present is replaced or dropped; an exception leaves records and errors as they were; otherwise lineCount goes up by one and at most one error is appended |
| ImportSpec.Import | src/backend/PatientCollection.java:86-131 | addPatientsFromFile keeps every record already present unchanged, and every record it adds is filed under its id with 4776 proteins, response "unk" and the prediction from proteins 3698 and 3259 |
| ImportSpec.ImportPrefixRun | src/backend/PatientCollection.java:96-119 | reading lines one at a time agrees with the fold over the classified lines |
| ImportSpec.ImportPrefixAll | src/backend/PatientCollection.java:96-119 | reading every line one at a time is the import |
| ImportSpec.ImportPrefixAborted | src/backend/PatientCollection.java:120 | once an exception ended the loop, the import is what was done before it |
| ImportSpec.ReadLineCases | src/backend/PatientCollection.java:98-114 | a wrong field count exactly when split gives other than 4777 fields; otherwise the id is field 0 and the proteins fail exactly when a field after it does not parse |
| ImportSpec.RunSnoc | src/backend/PatientCollection.java:96-119 | one more line is one more loop step |
| ImportSpec.RunLineCount | src/backend/PatientCollection.java:92-118 | until an exception, lineCount is one past the number of lines read |
| ImportSpec.AbortedRunStays | src/backend/PatientCollection.java:120 | after an exception, further lines change nothing |
| ImportSpec.ImportNextLine | src/backend/PatientCollection.java:98-118 | a wrong field count adds one format error for that line number and keeps the records; a known id adds one duplicate error naming that line and id and keeps the records; a new id with numeric fields adds the imported patient and no error; a bad number ends the import, keeping earlier records and errors |
| ImportSpec.RunKeepsExisting | src/backend/PatientCollection.java:105-107 | a record already present is never replaced: the original wins over a duplicate |
| ImportSpec.RunAddsImported | src/backend/PatientCollection.java:110-117 | every added record is filed under its id, has 4776 proteins, response "unk" and the prediction from proteins 3698 and 3259 |
| ImportSpec.RunKeepsWellFormed | src/backend/PatientCollection.java:105-117 | an import keeps a well-formed store well formed |
| ImportSpec.RunErrorsOrdered | src/backend/PatientCollection.java:92-118 | the errors name 1-based line numbers within the file, strictly increasing, each below the final lineCount |
| Store.RenderAllSnoc | src/backend/PatientCollection.java:136-138 | one more key appends that patient's text |
| Store.RenderAllLines | src/backend/PatientCollection.java:133-140 | toString has one line per patient when no printed part holds a line break |
| Store.RenderAll | src/backend/PatientCollection.java:133-140 | the text of the listed patients is "" exactly when no key is listed, and otherwise ends with a line break |
| Store.KeyValues | src/backend/PatientCollection.java:74-76 | one parsed value per key |
| Store.ValueOfSomeKey | src/backend/PatientCollection.java:74-77 | every sorted value is the value of some key |
| Store.ListedIdsAreKeys | src/backend/PatientCollection.java:71-84 | with canonical ids, the listed ids are exactly the keys, in increasing numeric order |
| Store.VisitNext | src/backend/PatientCollection.java:74 | visiting one more key keeps the for-each bookkeeping |
| Store.VisitDone | src/backend/PatientCollection.java:74 | a finished for-each has listed every key exactly once |
| Store.ParseProteins | src/backend/PatientCollection.java:111-114 | the protein loop: the 4776 parsed values when every field exists and parses, otherwise the exception |
| Store.ShowAll | src/backend/PatientCollection.java:78-81 | ""+i of every sorted value, in order |
| Store.PatientCollection.constructor | src/backend/PatientCollection.java:41-46 | the store holds exactly what readFile's loop reads from the lines, and is valid |
| Store.PatientCollection.LoadLine | src/backend/PatientCollection.java:152-158 | one line of readFile is one load step |
| Store.PatientCollection.GetPatient | src/backend/PatientCollection.java:48-54 | null exactly for an unknown id; otherwise the patient filed under it, holding the stored record |
| Store.PatientCollection.Put | src/backend/PatientCollection.java:116 | the patient is filed under its id; every other entry stays |
| Store.PatientCollection.RemovePatient | src/backend/PatientCollection.java:56-62 | returns what getPatient would have returned; the id is absent afterwards and every other entry is unchanged |
| Store.PatientCollection.SetResultForPatient | src/backend/PatientCollection.java:64-69 | no change for an unknown id; otherwise only that patient's response changes |
| Store.PatientCollection.GetIds | src/backend/PatientCollection.java:71-84 | fails exactly when a key does not parse as an int; otherwise ""+v of each key's value, sorted ascending and a permutation of the keys' values; with canonical ids, exactly the keys in numeric order |
| Store.PatientCollection.ParseKeys | src/backend/PatientCollection.java:73-76 | fails exactly when some key does not parse; otherwise the value of every key, each key once |
| Store.PatientCollection.AddPatientsFromFile | src/backend/PatientCollection.java:86-131 | the records after the call and the report returned are those of the import fold over the lines |
| Store.PatientCollection.ImportLine | src/backend/PatientCollection.java:98-118 | one pass of the loop body is one import step, appending exactly that step's message |
| Store.PatientCollection.ImportPatient | src/backend/PatientCollection.java:110-117 | a new id with numeric fields adds the import-path patient; a bad number changes nothing and stops |
| Store.PatientCollection.ToString | src/backend/PatientCollection.java:133-140 | the texts of all patients, each once, in one iteration order of the keys |
| Store.PatientCollection.ShowNext | src/backend/PatientCollection.java:136-138 | one pass of toString's loop appends that patient's text to what was built so far |
| Store.PatientCollection.WriteFile | src/backend/PatientCollection.java:209-233 | the saved lines, one per key, in one iteration order of the keys |
| Store.PatientCollection.WriteLine | src/backend/PatientCollection.java:219-225 | the line written for a patient is its encoded line |
| Store.RemoveTwice | src/backend/Tester.java:31-37 | the first removal returns what getPatient returned, the second returns null |
| Project1Backend.Predict | Project1/backend/Predictor.java:13-23 | always "predDP" or "predCR", "predCR" exactly in the same region, and equal to the later copy's result |
| Project1Backend.Patient.FromImport | Project1/backend/Patient.java:27-34 | the import-path record: response "unk", prediction from proteins 3698 and 3259 |
| Project1Backend.Patient.FromPersisted | Project1/backend/Patient.java:36-43 | all four fields taken verbatim |
| Project1Backend.Patient.PredictResponse | Project1/backend/Patient.java:45-47 | only the prediction changes, to Predict of 0-based proteins 3697 and 3258 |
| Project1Backend.Patient.SetResponse | Project1/backend/Patient.java:57-59 | only the response changes |
| Project1Backend.Patient.SetProteinLvl | Project1/backend/Patient.java:65-67 | only the protein vector changes |
| Project1Backend.Patient.SetPredict | Project1/backend/Patient.java:69-71 | only the prediction changes |
| Project1Backend.Patient.ToString | Project1/backend/Patient.java:77-82 | starts with "[Id] " and the id, ends with a line break, and is one line when no printed part holds a line break |

## Left out

- File and stream I/O are not modelled: opening, reading and writing files, closing readers, `newLine`, and logging to the console. Input files are sequences of lines; `doWrite` returns the sequence of lines it writes.
- The default constructor and `FILENAME` are not modelled; the collection is built from the lines of a file whatever its name. `writeFile()` and `writeFile(String)` only choose a file name and are covered by `WriteFile`.
- A missing or unreadable file is not modelled. In `addPatientsFromFile`, `br.close()` in the finally block then throws a NullPointerException, because that close has no null check. In `readFile` both closes check for null, and the catch block reads the classpath resource `fileName.substring(1)` instead; only when that resource is absent too is the error printed and the collection left empty.
- The second read in `readFile`'s catch block is not modelled. It reads a classpath resource after the first read failed. The model ends the read at the first unreadable line.
- IEEE-754 detail is not modelled: doubles are reals, and the rounding of the two thresholds and NaN comparisons are left out. The text conversions of doubles are the parameters `show` and `parse`.
- `Integer.parseInt` is modelled over ASCII digits only. Java also accepts other Unicode decimal digits.
- The overflow of `lineCount` past 2^31 - 1 lines is not modelled.
- HashMap iteration order is not modelled. `toString` and `doWrite` are proved for the order the loop happens to use, and that order lists every key once.
- The getters are not members of their own; they are the fields read through `Value()`. `getProteinLvl`, called at `src/backend/PatientCollection.java:222`, exists only in the Project1 copy; the model reads the patient's proteins field.
- Store.PatientCollection.GetPatient: changes made through the returned patient object are outside the model. The GUI calls `setResponse` on it directly; after such a change `records` no longer describes the store and `Valid()` no longer holds. `SetResultForPatient` is the modelled route for that change.
- Store.PatientCollection.GetIds: the listed ids are proved to be exactly the keys only when every key is in canonical form. For keys such as "007" the ids are ""+v of the values, which are not the keys.
- The loop bodies of `readFile`, `addPatientsFromFile`, `toString` and `doWrite`, and the two loops of `getIds`, are methods of their own (`LoadLine`, `ImportLine`, `ImportPatient`, `ShowNext`, `WriteLine`, `ParseKeys`, `ShowAll`, `ParseProteins`). Each is called once per pass, where the source has the code inline.
