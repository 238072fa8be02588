/** src/services/materialService.js: course materials with their uploader,
    publication flag and download log. */
module MaterialService {
  import opened Common
  import opened Store
  import opened Response

  const MaterialNotFound := "Material not found"
  const MaterialInvalid := "Material validation failed"

  /** The fields `createMaterial` reads; `None` is `undefined`. */
  datatype MaterialInput = MaterialInput(
    title: string, description: Option<string>, kind: Option<string>, fileName: string,
    fileSize: Option<int>, fileUrl: string, dueDate: Option<int>)

  /** The schema validators on a new material: a title once trimmed, a file
      name, a file URL and a file size. */
  predicate MaterialInputOk(input: MaterialInput)
  {
    |Trim(input.title)| > 0 && input.fileName != "" && input.fileUrl != "" && input.fileSize.Some?
  }

  /** `dueDate || null`: a missing or zero timestamp becomes no due date. */
  function DueDateOrNull(dueDate: Option<int>): (r: Option<int>)
    ensures r.Some? <==> dueDate.Some? && dueDate.value != 0
    ensures r.Some? ==> r == dueDate
  {
    if dueDate.Some? && dueDate.value != 0 then dueDate else None
  }

  /** The material `createMaterial` stores: the caller as uploader,
      published, with no downloads. */
  function NewMaterial(course: Id, uploader: Id, input: MaterialInput, now: int): (m: Material)
    requires MaterialInputOk(input)
    ensures m.course == course && m.uploader == uploader && m.isPublished && m.downloads == []
    ensures m.dueDate == DueDateOrNull(input.dueDate)
    ensures m.title == Trim(input.title) && m.fileName == input.fileName && m.fileUrl == input.fileUrl
  {
    Material(course, Trim(input.title), if input.description.Some? then Trim(input.description.value) else "",
             if input.kind.Some? then input.kind.value else "", input.fileName, input.fileSize.value,
             input.fileUrl, uploader, DueDateOrNull(input.dueDate), true, [], now)
  }

  /** `createMaterial`: validated, then stored under a fresh id. */
  method CreateMaterial(db: Db, course: Id, uploader: Id, input: MaterialInput, now: int)
    returns (r: Result<Doc<Material>>)
    requires db.Valid()
    modifies db`materials, db`nextId
    ensures db.Valid()
    ensures r.Ok? <==> MaterialInputOk(input)
    ensures r.Err? ==> r == Err(MaterialInvalid) && db.materials == old(db.materials) && db.nextId == old(db.nextId)
    ensures r.Ok? ==> (r.value == Doc(old(db.nextId), NewMaterial(course, uploader, input, now)) &&
      db.materials == old(db.materials) + [r.value] && db.nextId == old(db.nextId) + 1)
  {
    if !MaterialInputOk(input) {
      return Err(MaterialInvalid);
    }
    var m := NewMaterial(course, uploader, input, now);
    var id := db.InsertMaterial(m);
    r := Ok(Doc(id, m));
  }

  /** The validators src/models/Material.js runs on a new material: those
      of `MaterialInputOk`, and the required `uploadedBy`. */
  predicate MaterialDocOk(input: MaterialInput, uploadedBy: Option<Id>)
  {
    MaterialInputOk(input) && uploadedBy.Some?
  }

  /** `createMaterial` as written: it sets `uploader`, which
      src/models/Material.js does not declare (strict mode drops it), and
      never the required `uploadedBy`, so validation refuses every
      material; the corrected `CreateMaterial` stores exactly the materials
      that pass once `uploadedBy` is the caller. */
  function CreateMaterialAsWritten(input: MaterialInput): (r: Result<Doc<Material>>)
    ensures r.Ok? <==> MaterialDocOk(input, None)
    ensures r == Err(MaterialInvalid)
    ensures forall uploader: Id :: MaterialDocOk(input, Some(uploader)) <==> MaterialInputOk(input)
  {
    Err(MaterialInvalid)
  }

  /** `getCourseMaterials`: one page of the course's published materials,
      with `page = 1` and `limit = 20` when not given. */
  function GetCourseMaterials(materials: seq<Doc<Material>>, course: Id, page: Option<int>, limit: Option<int>)
    : (r: Result<(seq<Doc<Material>>, PageInfo)>)
    ensures var p := if page.Some? then page.value else 1;
      var l := if limit.Some? then limit.value else 20;
      (r.Err? <==> (p - 1) * l < 0) &&
      (r.Ok? ==> r.value.1 == PageInfo(Count(materials, (m: Material) => m.course == course && m.isPublished),
                                        PageCount(Count(materials, (m: Material) => m.course == course && m.isPublished), l),
                                        p, l))
    ensures r.Ok? ==> forall d :: d in r.value.0 ==> d in materials && d.val.course == course && d.val.isPublished
  {
    var p := if page.Some? then page.value else 1;
    var l := if limit.Some? then limit.value else 20;
    var matching := Select(materials, (m: Material) => m.course == course && m.isPublished);
    match Window(matching, (p - 1) * l, l)
    case Err(msg) => Err(msg)
    case Ok(items) =>
      assert forall d :: d in items ==> d in matching;
      Ok((items, PageInfo(|matching|, PageCount(|matching|, l), p, l)))
  }

  /** Every published material of the course is on some page up to `pages`
      when the limit is positive, and an unpublished one is on none. */
  lemma EveryPublishedMaterialListed(materials: seq<Doc<Material>>, course: Id, limit: int, i: int)
    requires limit > 0 && 0 <= i < Count(materials, (m: Material) => m.course == course && m.isPublished)
    ensures var page := i / limit + 1;
      var r := GetCourseMaterials(materials, course, Some(page), Some(limit));
      1 <= page <= r.value.1.pages.value &&
      Select(materials, (m: Material) => m.course == course && m.isPublished)[i] in r.value.0
  {
    PagesCoverListing(Select(materials, (m: Material) => m.course == course && m.isPublished), limit, i);
  }

  /** `getMaterialById`. */
  function GetMaterialById(materials: seq<Doc<Material>>, materialId: Id): (r: Result<Material>)
    ensures r.Err? <==> Find(materials, materialId).None?
    ensures r.Err? ==> r == Err(MaterialNotFound)
    ensures r.Ok? ==> Doc(materialId, r.value) in materials
  {
    match Find(materials, materialId)
    case None => Err(MaterialNotFound)
    case Some(i) => Ok(materials[i].val)
  }

  /** The `allowedFields` of `updateMaterial`. */
  const MaterialFields := ["title", "description", "type", "dueDate", "isPublished"]

  /** The casts and update validators: text for the strings, with the
      required `title` not empty once trimmed, a timestamp or `null` for the
      due date, a boolean for the flag. */
  predicate MaterialUpdateOk(upd: map<string, Value>)
  {
    ("title" in upd ==> upd["title"].Text? && |Trim(upd["title"].s)| > 0) &&
    ("description" in upd ==> upd["description"].Text?) &&
    ("type" in upd ==> upd["type"].Text?) &&
    ("dueDate" in upd ==> upd["dueDate"].Num? || upd["dueDate"].Null?) &&
    ("isPublished" in upd ==> upd["isPublished"].Bool?)
  }

  /** The material after `{ ...updateData, updatedAt }`. */
  function ApplyMaterialUpdate(m: Material, upd: map<string, Value>, now: int): Material
    requires MaterialUpdateOk(upd)
  {
    m.(title := if "title" in upd then Trim(upd["title"].s) else m.title,
       description := if "description" in upd then Trim(upd["description"].s) else m.description,
       kind := if "type" in upd then upd["type"].s else m.kind,
       dueDate := if "dueDate" !in upd then m.dueDate else if upd["dueDate"].Num? then Some(upd["dueDate"].n) else None,
       isPublished := if "isPublished" in upd then upd["isPublished"].b else m.isPublished,
       updatedAt := now)
  }

  /** The course, file, uploader and download log never change through
      `updateMaterial`; an absent field keeps its value. */
  lemma MaterialUpdateKeepsFile(m: Material, upd: map<string, Value>, now: int)
    requires MaterialUpdateOk(upd)
    ensures var m' := ApplyMaterialUpdate(m, upd, now);
      m'.course == m.course && m'.fileName == m.fileName && m'.fileSize == m.fileSize &&
      m'.fileUrl == m.fileUrl && m'.uploader == m.uploader && m'.downloads == m.downloads
    ensures "isPublished" !in upd ==> ApplyMaterialUpdate(m, upd, now).isPublished == m.isPublished
    ensures "dueDate" in upd && upd["dueDate"].Null? ==> ApplyMaterialUpdate(m, upd, now).dueDate.None?
  {
  }

  /** `updateMaterial`: the whitelist loop, the casts and validators, then
      the lookup. */
  method UpdateMaterial(db: Db, materialId: Id, data: map<string, Value>, now: int) returns (r: Result<Material>)
    requires db.Valid()
    modifies db`materials
    ensures db.Valid()
    ensures r.Err? ==> db.materials == old(db.materials)
    ensures var upd := map f | f in data && f in MaterialFields :: data[f];
      (r.Ok? <==> MaterialUpdateOk(upd) && Find(old(db.materials), materialId).Some?) &&
      (r == Err(MaterialNotFound) <==> MaterialUpdateOk(upd) && Find(old(db.materials), materialId).None?) &&
      (r.Ok? ==> var i := Find(old(db.materials), materialId).value;
        r.value == ApplyMaterialUpdate(old(db.materials)[i].val, upd, now) &&
        db.materials == old(db.materials)[i := Doc(materialId, r.value)])
  {
    var upd := SelectAllowed(data, MaterialFields);
    assert upd == map f | f in data && f in MaterialFields :: data[f];
    if !MaterialUpdateOk(upd) {
      return Err(MaterialInvalid);
    }
    var found := Find(db.materials, materialId);
    if found.None? {
      return Err(MaterialNotFound);
    }
    var i := found.value;
    var m := ApplyMaterialUpdate(db.materials[i].val, upd, now);
    UpdateWellKeyed(db.materials, db.nextId, i, m);
    db.SetMaterials(db.materials[i := Doc(materialId, m)]);
    r := Ok(m);
  }

  /** `deleteMaterial`: the material with that id is removed, the others stay. */
  method DeleteMaterial(db: Db, materialId: Id) returns (r: Result<()>)
    requires db.Valid()
    modifies db`materials
    ensures db.Valid()
    ensures r.Err? <==> Find(old(db.materials), materialId).None?
    ensures r.Err? ==> r == Err(MaterialNotFound) && db.materials == old(db.materials)
    ensures r.Ok? ==> db.materials == RemoveAt(old(db.materials), Find(old(db.materials), materialId).value)
  {
    var found := Find(db.materials, materialId);
    if found.None? {
      return Err(MaterialNotFound);
    }
    RemoveAtWellKeyed(db.materials, db.nextId, found.value);
    db.SetMaterials(RemoveAt(db.materials, found.value));
    r := Ok(());
  }

  /** `$push` of one download; the schema's timestamps also set `updatedAt`. */
  function WithDownload(m: Material, user: Id, now: int): (m': Material)
    ensures m'.downloads == m.downloads + [Download(user, now)]
    ensures m'.(downloads := m.downloads, updatedAt := m.updatedAt) == m
  {
    m.(downloads := m.downloads + [Download(user, now)], updatedAt := now)
  }

  /** Each recorded download adds exactly one entry for that user. */
  lemma DownloadsCountUsers(m: Material, user: Id, other: Id, now: int)
    requires other != user
    ensures multiset(WithDownload(m, user, now).downloads)[Download(user, now)] ==
            multiset(m.downloads)[Download(user, now)] + 1
    ensures |WithDownload(m, user, now).downloads| == |m.downloads| + 1
    ensures forall t :: multiset(WithDownload(m, user, now).downloads)[Download(other, t)] ==
                        multiset(m.downloads)[Download(other, t)]
  {
  }

  /** The `CastError` of `$push`ing an object onto `downloads`, a `Number`
      in src/models/Material.js (the message abbreviated). */
  const DownloadsCastError := "Cast to Number failed at path \"downloads\""

  /** `recordDownload` as written: Mongoose casts the update before it runs
      the query, and an object does not cast to the `Number` path
      `downloads`, so every call fails, even for a material that does not
      exist, and no download is ever recorded. */
  function RecordDownloadAsWritten(materials: seq<Doc<Material>>, materialId: Id): (r: Result<Material>)
    ensures r.Err? && r.msg != MaterialNotFound
  {
    Err(DownloadsCastError)
  }

  /** `recordDownload`: one `{ user, downloadedAt }` entry is appended. */
  method RecordDownload(db: Db, materialId: Id, user: Id, now: int) returns (r: Result<Material>)
    requires db.Valid()
    modifies db`materials
    ensures db.Valid()
    ensures r.Err? <==> Find(old(db.materials), materialId).None?
    ensures r.Err? ==> r == Err(MaterialNotFound) && db.materials == old(db.materials)
    ensures r.Ok? ==> var i := Find(old(db.materials), materialId).value;
      r.value == WithDownload(old(db.materials)[i].val, user, now) &&
      db.materials == old(db.materials)[i := Doc(materialId, r.value)]
  {
    var found := Find(db.materials, materialId);
    if found.None? {
      return Err(MaterialNotFound);
    }
    var i := found.value;
    var m := WithDownload(db.materials[i].val, user, now);
    UpdateWellKeyed(db.materials, db.nextId, i, m);
    db.SetMaterials(db.materials[i := Doc(materialId, m)]);
    r := Ok(m);
  }
}
