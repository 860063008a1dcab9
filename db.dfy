/** The local project store (src/lib/db.ts): the `projects` table keyed by id,
    project creation with its defaults, and appending a photo. */
module Db {
  import opened Data

  /** What the caller of `addProject` supplies. */
  datatype NewProject = NewProject(
    name: string, address: string, client: string, projectType: ProjectType)

  /** An entry of the placeholder image list. */
  datatype Placeholder = Placeholder(imageUrl: string, imageHint: string)

  datatype StoreError =
    | StoreFailed       // the store rejected the call
    | KeyExists         // `add` with a key already in the table
    | NoPlaceholder     // the picked placeholder index is past the list's end
    | NoChallenge       // `Dexie.currentChallenge` is undefined, so reading `.value` throws

  /** A partial update: the field a caller replaces wholesale. */
  datatype ProjectPatch = SetTasks(tasks: seq<Task>) | SetPhotos(photos: seq<Photo>)

  function Patched(p: Project, patch: ProjectPatch): Project {
    match patch
    case SetTasks(ts) => p.(tasks := ts)
    case SetPhotos(ph) => p.(photos := ph)
  }

  /** The record `addProject` builds: the caller's name, address, client and
      type, a new id, the creation date, the chosen cover, empty task, photo,
      visit and file lists, and the phase template. */
  function InitialProject(
    data: NewProject, id: string, startDate: int, cover: Placeholder, phases: seq<Phase>): (p: Project)
    ensures p.name == data.name && p.address == data.address
    ensures p.client == data.client && p.projectType == data.projectType
    ensures p.id == id && p.startDate == startDate
    ensures p.coverPhotoUrl == cover.imageUrl && p.coverPhotoHint == cover.imageHint
    ensures p.tasks == [] && p.photos == [] && p.visits == [] && p.files == []
    ensures p.phases == phases
  {
    Project(id, data.name, data.address, data.client, startDate, data.projectType,
            cover.imageUrl, cover.imageHint, [], [], [], phases, [])
  }

  /** The `projects` table, with the placeholder images and the phase template
      that project creation reads. */
  class ProjectStore {
    var projects: map<string, Project>
    const placeholders: seq<Placeholder>
    const phaseTemplate: seq<Phase>

    constructor(placeholders: seq<Placeholder>, phaseTemplate: seq<Phase>)
      ensures projects == map[]
      ensures this.placeholders == placeholders && this.phaseTemplate == phaseTemplate
    {
      projects := map[];
      this.placeholders := placeholders;
      this.phaseTemplate := phaseTemplate;
    }

    /** `addProject`: `imageIndex` is the random pick `Math.floor(Math.random() * 4)`.
        Reading a placeholder past the list's end throws before anything is
        stored; otherwise the single `add` either inserts the new project and
        yields its key, or is rejected. */
    method AddProject(data: NewProject, freshId: string, now: int, imageIndex: nat, storeFails: bool)
      returns (r: Result<string, StoreError>)
      requires imageIndex < 4
      modifies this
      ensures r == if imageIndex >= |placeholders| then Err(NoPlaceholder)
                   else if storeFails then Err(StoreFailed)
                   else if freshId in old(projects) then Err(KeyExists)
                   else Ok(freshId)
      ensures r.Ok? ==> projects == old(projects)[freshId :=
        InitialProject(data, freshId, now, placeholders[imageIndex], phaseTemplate)]
      ensures r.Err? ==> projects == old(projects)
    {
      if imageIndex >= |placeholders| {
        return Err(NoPlaceholder);
      }
      var cover := placeholders[imageIndex];
      var p := InitialProject(data, freshId, now, cover, phaseTemplate);
      if storeFails {
        r := Err(StoreFailed);
      } else if freshId in projects {
        r := Err(KeyExists);
      } else {
        projects := projects[freshId := p];
        r := Ok(freshId);
      }
    }

    /** `get(id)`. */
    method Get(id: string) returns (p: Option<Project>)
      ensures p == if id in projects then Some(projects[id]) else None
    {
      p := if id in projects then Some(projects[id]) else None;
    }

    /** `update(id, changes)`: a missing key is not an error and changes nothing. */
    method Update(id: string, patch: ProjectPatch, storeFails: bool) returns (ok: bool)
      modifies this
      ensures ok == !storeFails
      ensures projects == if ok && id in old(projects)
                          then old(projects)[id := Patched(old(projects)[id], patch)]
                          else old(projects)
    {
      ok := !storeFails;
      if ok && id in projects {
        projects := projects[id := Patched(projects[id], patch)];
      }
    }

    /** `addPhotoToProject` as written: building the patch reads
        `Dexie.currentChallenge.value`, and `Dexie` has no `currentChallenge`,
        so the call rejects before `update` runs, whatever the store holds. */
    method AddPhotoToProjectAsWritten(projectId: string, photo: Photo) returns (r: Result<(), StoreError>)
      ensures r == Err(NoChallenge)
    {
      r := Err(NoChallenge);
    }

    /** `addPhotoToProject` as evidently intended: the stored photos with the
        new one appended last; no other field of the project changes. */
    method AddPhotoToProject(projectId: string, photo: Photo, storeFails: bool) returns (ok: bool)
      modifies this
      ensures ok == !storeFails
      ensures projectId !in old(projects) ==> projects == old(projects)
      ensures projectId in old(projects) ==>
        var p := old(projects)[projectId];
        projects == if ok then old(projects)[projectId := p.(photos := p.photos + [photo])]
                    else old(projects)
    {
      var previous := Get(projectId);
      var photos := if previous.Some? then previous.value.photos else [];
      ok := Update(projectId, SetPhotos(photos + [photo]), storeFails);
    }

    /** On a stored project, the code as written leaves the photos as they were,
        while the intended append adds the photo last: the two differ. */
    method PhotoDroppedAsWritten(projectId: string, photo: Photo)
      returns (asWritten: seq<Photo>, intended: seq<Photo>)
      requires projectId in projects
      modifies this
      ensures asWritten == old(projects)[projectId].photos
      ensures intended == old(projects)[projectId].photos + [photo]
      ensures asWritten != intended
    {
      var r := AddPhotoToProjectAsWritten(projectId, photo);
      asWritten := projects[projectId].photos;
      var ok := AddPhotoToProject(projectId, photo, false);
      intended := projects[projectId].photos;
      assert |intended| == |asWritten| + 1;
    }
  }
}
