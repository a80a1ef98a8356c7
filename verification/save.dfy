/** SaveModel: one named save of a drawing, with its images and save dates. */
module SaveModel {
  import opened Wrappers
  import DrawingModel

  /** A UIImage, known only by identity. */
  datatype Image = Image(id: nat)

  /** A Date, as seconds on some fixed clock. */
  datatype Date = Date(seconds: int)

  datatype Save = Save(
    fileName: string,
    thumbnail: Image,
    screenshots: seq<Image>,
    drawing: DrawingModel.Drawing,
    saveDate: Option<Date>,
    originalSaveDate: Option<Date>,
    overwriteCount: int)

  /** `init(fileName:thumbnail:screenshots:drawing:saveDate:)`: both dates are the given one, never overwritten yet. */
  function New(fileName: string, thumbnail: Image, screenshots: seq<Image>,
               drawing: DrawingModel.Drawing, saveDate: Option<Date>): (s: Save)
    ensures s.fileName == fileName && s.thumbnail == thumbnail && s.screenshots == screenshots
    ensures s.drawing == drawing
    ensures s.saveDate == saveDate && s.originalSaveDate == saveDate
    ensures s.overwriteCount == 0
  {
    Save(fileName, thumbnail, screenshots, drawing, saveDate, saveDate, 0)
  }

  /**
   * `overwrite(thumbnail:screenshots:drawing:saveDate:)`: replaces the contents and the last save
   * date, counts one more overwrite, and fills in the original date only if it was still missing.
   */
  function Overwrite(s: Save, thumbnail: Image, screenshots: seq<Image>,
                     drawing: DrawingModel.Drawing, saveDate: Option<Date>): (r: Save)
    ensures r.fileName == s.fileName
    ensures r.thumbnail == thumbnail && r.screenshots == screenshots && r.drawing == drawing
    ensures r.saveDate == saveDate
    ensures r.overwriteCount == s.overwriteCount + 1
    ensures s.originalSaveDate.Some? ==> r.originalSaveDate == s.originalSaveDate
    ensures s.originalSaveDate.None? ==> r.originalSaveDate == saveDate
  {
    var original := if s.originalSaveDate.None? && saveDate.Some? then saveDate else s.originalSaveDate;
    Save(s.fileName, thumbnail, screenshots, drawing, saveDate, original, s.overwriteCount + 1)
  }

  /** `append(screenshot:)`: the screenshot goes at the end; nothing else changes. */
  function AppendScreenshot(s: Save, screenshot: Image): (r: Save)
    ensures r.screenshots == s.screenshots + [screenshot]
    ensures r == s.(screenshots := r.screenshots)
  {
    s.(screenshots := s.screenshots + [screenshot])
  }

  /** Overwriting with no date clears the last save date but keeps the original one. */
  lemma OverwriteWithoutDate(s: Save, thumbnail: Image, screenshots: seq<Image>, drawing: DrawingModel.Drawing)
    ensures Overwrite(s, thumbnail, screenshots, drawing, None).saveDate == None
    ensures Overwrite(s, thumbnail, screenshots, drawing, None).originalSaveDate == s.originalSaveDate
  {
  }

  /** The mutations a save undergoes after construction. */
  datatype Update =
    | OverwriteWith(thumbnail: Image, screenshots: seq<Image>, drawing: DrawingModel.Drawing, saveDate: Option<Date>)
    | AppendShot(screenshot: Image)

  function Apply(s: Save, u: Update): Save {
    match u
    case OverwriteWith(t, shots, d, date) => Overwrite(s, t, shots, d, date)
    case AppendShot(img) => AppendScreenshot(s, img)
  }

  function Run(s: Save, us: seq<Update>): Save
    decreases |us|
  {
    if |us| == 0 then s else Run(Apply(s, us[0]), us[1..])
  }

  /** Number of overwrites in a list of updates. */
  function Overwrites(us: seq<Update>): nat
    decreases |us|
  {
    if |us| == 0 then 0 else (if us[0].OverwriteWith? then 1 else 0) + Overwrites(us[1..])
  }

  /**
   * Over any sequence of updates: the file name never changes, the overwrite counter grows by the
   * number of overwrites, and an original save date, once set, stays.
   */
  lemma {:induction false} RunKeepsIdentity(s: Save, us: seq<Update>)
    ensures Run(s, us).fileName == s.fileName
    ensures Run(s, us).overwriteCount == s.overwriteCount + Overwrites(us)
    ensures s.originalSaveDate.Some? ==> Run(s, us).originalSaveDate == s.originalSaveDate
    decreases |us|
  {
    if |us| > 0 {
      RunKeepsIdentity(Apply(s, us[0]), us[1..]);
    }
  }
}
