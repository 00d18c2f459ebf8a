/** Enrollment of a new person: choosing the capture source, the capture loop that saves
    resized face crops, the construction of the training set and label map over the stored
    face directories, and the error exits of the whole job.

    The camera, the face detector, image files and the directory listing are inputs: each
    read either yields the faces detected in the frame (and whether the quit key was
    pressed in the preview window) or fails, in which case it says whether reopening the
    camera succeeded; the listing is the sorted content of the faces directory, each image
    of a person directory being readable or not. Training the recogniser and writing the
    model and label-map files are not modelled. */
module Enrollment {

  import opened Common

  /** Why an enrollment job fails. */
  datatype EnrollError =
    | CascadeNotFound            // the face detector's cascade file is missing
    | CannotOpenSource(source: Source)
    | LostCamera                 // a read failed and the camera could not be reopened
    | ZeroFrameInterval          // `frame_count % frame_interval` with an interval of 0
    | NoFacesCollected
    | NoTrainingImages

  datatype Result<+T> = Success(value: T) | Failure(error: EnrollError)

  /** The capture source: the explicit video source when one is given, the camera index
      otherwise. */
  function SelectSource(videoSource: Option<string>, cameraIndex: int): (s: Source)
    ensures videoSource.Some? ==> s == StreamUrl(videoSource.value)
    ensures videoSource.None? ==> s == CameraIndex(cameraIndex)
  {
    if videoSource.Some? then StreamUrl(videoSource.value) else CameraIndex(cameraIndex)
  }

  /** One read of the capture loop. */
  datatype CaptureRead =
    | Grabbed(faces: seq<Region>, quitPressed: bool)
    | Lost(reopened: bool)

  /** A saved face crop: the number in its file name `<index>.jpg`, the detected region it
      was cut from, and the interpolation used to resize it to FACE_SIZE x FACE_SIZE. */
  datatype SavedImage = SavedImage(index: nat, region: Region, interp: Interp)

  /** How a capture loop ended: it broke out (enough images, or the user quit), or the
      camera feed ran out while the loop was still waiting for frames. */
  datatype CaptureEnd = Stopped | InputEnded

  /** All faces detected in the frames of `feed`, in order. */
  function AllFaces(feed: seq<CaptureRead>): seq<Region>
    decreases |feed|
  {
    if feed == [] then []
    else
      var before := AllFaces(feed[..|feed| - 1]);
      match feed[|feed| - 1]
      case Grabbed(faces, _) => before + faces
      case Lost(_) => before
  }

  /** Whether the face with running number `k` falls on the sampling interval `d`. The
      source's floored remainder and Dafny's Euclidean one are zero for the same `k`, also
      for a negative `d`; a zero `d` never matches (the source fails instead, see
      `Capture`). */
  predicate OnInterval(k: nat, d: int)
  {
    d != 0 && k % d == 0
  }

  /** The faces the loop would save if the image budget never ran out: those whose
      running number is a multiple of the interval. */
  function Sampled(faces: seq<Region>, d: int): seq<Region>
    decreases |faces|
  {
    if faces == [] then []
    else
      var n := |faces| - 1;
      Sampled(faces[..n], d) + (if OnInterval(n, d) then [faces[n]] else [])
  }

  /** The sampled faces are every `d`-th face, starting with the first: there are
      `ceil(|faces| / d)` of them and the `i`-th is face number `i * d`. */
  lemma {:induction false} SampledEveryNth(faces: seq<Region>, d: nat)
    requires d > 0
    ensures |Sampled(faces, d)| == (|faces| + d - 1) / d
    ensures forall i :: 0 <= i < |Sampled(faces, d)| ==> i * d < |faces| && Sampled(faces, d)[i] == faces[i * d]
    decreases |faces|
  {
    if faces != [] {
      var n := |faces| - 1;
      var before := Sampled(faces[..n], d);
      SampledEveryNth(faces[..n], d);
      CeilStep(n, d);
      var after := Sampled(faces, d);
      assert after == before + (if n % d == 0 then [faces[n]] else []);
      forall i | 0 <= i < |after|
        ensures i * d < |faces| && after[i] == faces[i * d]
      {
        if i < |before| {
          assert faces[..n][i * d] == faces[i * d];
        } else {
          assert i * d == n;
        }
      }
    }
  }

  /** How `ceil(n / d)` moves when `n` grows by one: it steps up exactly when `n` is a
      multiple of `d`, and then `n` is that many intervals. */
  lemma CeilStep(n: nat, d: nat)
    requires d > 0
    ensures (n + d) / d == (n + d - 1) / d + (if n % d == 0 then 1 else 0)
    ensures n % d == 0 ==> ((n + d - 1) / d) * d == n
  {
    var q := n / d;
    var r := n % d;
    if r == 0 {
      DivIdentity(n + d - 1, q, d - 1, d);
      DivIdentity(n + d, q + 1, 0, d);
    } else {
      DivIdentity(n + d - 1, q + 1, r - 1, d);
      DivIdentity(n + d, q + 1, r, d);
    }
  }

  /** With an interval of 0 no face is ever on the interval. */
  lemma {:induction false} SampledNever(faces: seq<Region>)
    ensures Sampled(faces, 0) == []
    decreases |faces|
  {
    if faces != [] {
      SampledNever(faces[..|faces| - 1]);
    }
  }

  /** Division is determined by the quotient-remainder decomposition. */
  lemma DivIdentity(a: int, q: int, r: int, d: int)
    requires d > 0 && 0 <= r < d && a == q * d + r
    ensures a / d == q && a % d == r
  {
    var k := a / d;
    var m := a % d;
    assert (q - k) * d == m - r;
    if q > k {
      MulAtLeast(q - k, d);
    } else if q < k {
      MulAtLeast(k - q, d);
    }
  }

  lemma {:induction false} MulAtLeast(x: int, d: int)
    requires x >= 1 && d > 0
    ensures x * d >= d
    decreases x
  {
    if x > 1 {
      MulAtLeast(x - 1, d);
      assert x * d == (x - 1) * d + d;
    }
  }

  /** The number of saves the loop can make: it saves while `count < numImages` and every
      save adds 2 to `count`, so it is the least `m` with `2 * m >= numImages`. */
  function Quota(numImages: int): (m: nat)
    ensures numImages <= 0 ==> m == 0
    ensures numImages > 0 ==> 2 * m >= numImages && 2 * (m - 1) < numImages
  {
    if numImages <= 0 then 0 else (numImages + 1) / 2
  }

  /** `saved` holds the saves the loop makes out of the faces `sampled` on the interval: the
      first `Quota(numImages)` of them, numbered 0, 2, 4, ... and resized by the crop's
      size. */
  predicate SavesOf(saved: seq<SavedImage>, sampled: seq<Region>, numImages: int)
  {
    && |saved| == Min(Quota(numImages), |sampled|)
    && forall i :: 0 <= i < |saved| ==>
         saved[i] == SavedImage(2 * i, sampled[i], Interpolation(sampled[i].w, sampled[i].h))
  }

  /** With a positive interval the saves are faces 0, d, 2d, ... of the capture, as many as
      both the budget and the faces seen allow. */
  lemma SavesEveryNth(saved: seq<SavedImage>, faces: seq<Region>, d: nat, numImages: int)
    requires d > 0 && SavesOf(saved, Sampled(faces, d), numImages)
    ensures |saved| == Min(Quota(numImages), (|faces| + d - 1) / d)
    ensures forall i :: 0 <= i < |saved| ==>
      i * d < |faces| && saved[i] == SavedImage(2 * i, faces[i * d], Interpolation(faces[i * d].w, faces[i * d].h))
  {
    SampledEveryNth(faces, d);
  }

  /** One more face: it is saved exactly when it is on the interval and the image budget
      (`count = 2 * |saved|` against `numImages`) is not spent. */
  lemma SaveStep(seen: seq<Region>, face: Region, d: int, numImages: int, saved: seq<SavedImage>)
    requires SavesOf(saved, Sampled(seen, d), numImages)
    ensures var saved' := if OnInterval(|seen|, d) && 2 * |saved| < numImages
                          then saved + [SavedImage(2 * |saved|, face, Interpolation(face.w, face.h))]
                          else saved;
            SavesOf(saved', Sampled(seen + [face], d), numImages)
  {
    var all := seen + [face];
    assert all[..|seen|] == seen;
    assert Sampled(all, d) == Sampled(seen, d) + (if OnInterval(|seen|, d) then [face] else []);
  }

  /** The loop over the faces detected in one frame. `seen` are the faces of the earlier
      frames. With a zero interval the first face makes the remainder test divide by zero
      (`divByZero`) and nothing changes; otherwise every face is counted and saved when the
      interval and the budget allow, as `SavesOf` describes. */
  method SaveFaces(faces: seq<Region>, frameInterval: int, numImages: int, ghost seen: seq<Region>,
                   saved0: seq<SavedImage>, count0: nat, frameCount0: nat)
    returns (divByZero: bool, saved: seq<SavedImage>, count: nat, frameCount: nat)
    requires count0 == 2 * |saved0| && frameCount0 == |seen|
    requires frameInterval == 0 ==> frameCount0 == 0 && saved0 == []
    requires SavesOf(saved0, Sampled(seen, frameInterval), numImages)
    ensures divByZero <==> frameInterval == 0 && faces != []
    ensures count == 2 * |saved|
    ensures divByZero ==> saved == saved0 && count == count0 && frameCount == frameCount0
    ensures !divByZero ==>
      && frameCount == |seen + faces|
      && (frameInterval == 0 ==> frameCount == 0 && saved == [])
      && SavesOf(saved, Sampled(seen + faces, frameInterval), numImages)
  {
    divByZero, saved, count, frameCount := false, saved0, count0, frameCount0;
    assert seen + faces[..0] == seen;
    var f := 0;
    while f < |faces|
      invariant 0 <= f <= |faces|
      invariant count == 2 * |saved|
      invariant frameCount == |seen + faces[..f]|
      invariant frameInterval == 0 ==> frameCount == 0 && saved == []
      invariant SavesOf(saved, Sampled(seen + faces[..f], frameInterval), numImages)
    {
      if frameInterval == 0 {
        divByZero, saved, count, frameCount := true, saved0, count0, frameCount0;
        return;
      }
      assert seen + faces[..f + 1] == (seen + faces[..f]) + [faces[f]];
      SaveStep(seen + faces[..f], faces[f], frameInterval, numImages, saved);
      if frameCount % frameInterval == 0 && count < numImages {
        var face := faces[f];
        saved := saved + [SavedImage(count, face, Interpolation(face.w, face.h))];
        count := count + 1;
        count := count + 1;
      }
      frameCount := frameCount + 1;
      f := f + 1;
    }
    assert faces[..f] == faces;
  }

  /** Whether some read of `feed` failed, after which the loop reads from the camera index. */
  predicate AnyLost(feed: seq<CaptureRead>)
    decreases |feed|
  {
    feed != [] && (AnyLost(feed[..|feed| - 1]) || feed[|feed| - 1].Lost?)
  }

  /** Whether the capture loop goes on after read `j` of `feed`: a failed read goes on when
      the camera could be reopened; a frame goes on unless it makes the remainder test divide
      by zero, the user quit the preview, or the saves so far have spent the budget. */
  predicate Continues(feed: seq<CaptureRead>, j: nat, display: bool, numImages: int, frameInterval: int)
    requires j < |feed|
  {
    match feed[j]
    case Lost(reopened) => reopened
    case Grabbed(faces, quitPressed) =>
      && !(frameInterval == 0 && faces != [])
      && !(display && quitPressed)
      && 2 * Min(Quota(numImages), |Sampled(AllFaces(feed[..j + 1]), frameInterval)|) < numImages
  }

  /** The first read of `feed` from `i` on after which the capture loop stops, or `|feed|`
      when it goes on through all of them. */
  function StopFrom(feed: seq<CaptureRead>, i: nat, display: bool, numImages: int, frameInterval: int): (k: nat)
    requires i <= |feed|
    ensures i <= k <= |feed|
    ensures forall j :: i <= j < k ==> Continues(feed, j, display, numImages, frameInterval)
    ensures k < |feed| ==> !Continues(feed, k, display, numImages, frameInterval)
    decreases |feed| - i
  {
    if i == |feed| || !Continues(feed, i, display, numImages, frameInterval) then i
    else StopFrom(feed, i + 1, display, numImages, frameInterval)
  }

  /** The stopping read is the only read such that all reads before it go on and it does not. */
  lemma StopReadIs(feed: seq<CaptureRead>, k: nat, display: bool, numImages: int, frameInterval: int)
    requires k <= |feed|
    requires forall j :: 0 <= j < k ==> Continues(feed, j, display, numImages, frameInterval)
    requires k < |feed| ==> !Continues(feed, k, display, numImages, frameInterval)
    ensures StopFrom(feed, 0, display, numImages, frameInterval) == k
  {
  }

  /** How the capture loop ends when read `read` stops it: a failed read stops it only when
      the camera cannot be reopened, a frame with faces under a zero interval divides by
      zero, and any other stopping frame is a regular stop. */
  function EndOf(read: CaptureRead, frameInterval: int): Result<CaptureEnd>
  {
    match read
    case Lost(_) => Failure(LostCamera)
    case Grabbed(faces, _) =>
      if frameInterval == 0 && faces != [] then Failure(ZeroFrameInterval) else Success(Stopped)
  }

  /** The capture loop. Every face of every frame counts towards `frameCount`; a face
      whose running number falls on the interval is saved while `count < numImages`, and a
      save adds 2 to `count`, so the files are numbered 0, 2, 4, .... After each frame the
      loop breaks if the user quit the preview or `count >= numImages`. A failed read
      switches to the camera index (even when a video source was chosen) and fails if
      that camera cannot be opened. */
  method Capture(source: Source, cameraIndex: int, numImages: int, frameInterval: int,
                 display: bool, feed: seq<CaptureRead>)
    returns (outcome: Result<CaptureEnd>, count: nat, frameCount: nat, saved: seq<SavedImage>,
             consumed: nat, current: Source)
    ensures consumed <= |feed|
    ensures count == 2 * |saved|
    ensures count == 0 || count <= numImages + 1
    ensures SavesOf(saved, Sampled(AllFaces(feed[..consumed]), frameInterval), numImages)
    ensures outcome != Failure(ZeroFrameInterval) ==> frameCount == |AllFaces(feed[..consumed])|
    ensures var stop := StopFrom(feed, 0, display, numImages, frameInterval);
      && (outcome == Success(InputEnded) <==> stop == |feed|)
      && consumed == (if stop == |feed| then |feed| else stop + 1)
    ensures outcome != Success(InputEnded) ==> outcome == EndOf(feed[consumed - 1], frameInterval)
    ensures current == (if AnyLost(feed[..consumed]) then CameraIndex(cameraIndex) else source)
  {
    count, frameCount, saved, consumed, current := 0, 0, [], 0, source;
    var stopped := false;
    outcome := Success(InputEnded);
    while !stopped && consumed < |feed|
      invariant consumed <= |feed|
      invariant count == 2 * |saved|
      invariant outcome != Failure(ZeroFrameInterval) ==> frameCount == |AllFaces(feed[..consumed])|
      invariant frameInterval == 0 ==> frameCount == 0 && saved == []
      invariant SavesOf(saved, Sampled(AllFaces(feed[..consumed]), frameInterval), numImages)
      invariant forall j :: 0 <= j < consumed - 1 ==> Continues(feed, j, display, numImages, frameInterval)
      invariant !stopped ==>
        outcome == Success(InputEnded) && (consumed > 0 ==> Continues(feed, consumed - 1, display, numImages, frameInterval))
      invariant stopped ==>
        && consumed > 0
        && outcome == EndOf(feed[consumed - 1], frameInterval)
        && !Continues(feed, consumed - 1, display, numImages, frameInterval)
      invariant current == (if AnyLost(feed[..consumed]) then CameraIndex(cameraIndex) else source)
    {
      var read := feed[consumed];
      assert feed[..consumed + 1][..consumed] == feed[..consumed];
      match read {
        case Lost(reopened) =>
          current := CameraIndex(cameraIndex);
          consumed := consumed + 1;
          if !reopened {
            outcome := Failure(LostCamera);
            stopped := true;
          }
        case Grabbed(faces, quitPressed) =>
          ghost var seen0 := AllFaces(feed[..consumed]);
          assert AllFaces(feed[..consumed + 1]) == seen0 + faces;
          var divByZero;
          divByZero, saved, count, frameCount := SaveFaces(faces, frameInterval, numImages, seen0, saved, count, frameCount);
          consumed := consumed + 1;
          if divByZero {
            SampledNever(AllFaces(feed[..consumed]));
            outcome := Failure(ZeroFrameInterval);
            stopped := true;
          } else if (display && quitPressed) || count >= numImages {
            outcome := Success(Stopped);
            stopped := true;
          }
      }
    }
    StopReadIs(feed, if stopped then consumed - 1 else consumed, display, numImages, frameInterval);

  }

  /** An image file in a person directory, as reading it returns it. */
  datatype ImageFile = Readable(pixels: seq<int>) | Unreadable

  /** An entry of the faces directory: a plain file, or a person directory with its images
      in sorted order. */
  datatype DirEntry = File(name: string) | Directory(name: string, images: seq<ImageFile>)

  /** The training set and label map built over the faces directory. */
  datatype TrainingSet = TrainingSet(faces: seq<seq<int>>, labels: seq<nat>, labelMap: map<nat, string>, nextId: nat)

  /** The readable images of a directory, in order. */
  function Readables(images: seq<ImageFile>): seq<seq<int>>
    decreases |images|
  {
    if images == [] then []
    else
      var before := Readables(images[..|images| - 1]);
      match images[|images| - 1]
      case Readable(pixels) => before + [pixels]
      case Unreadable => before
  }

  /** The names of the person directories of a listing, in listing order. */
  function Directories(entries: seq<DirEntry>): seq<string>
    decreases |entries|
  {
    if entries == [] then []
    else
      var before := Directories(entries[..|entries| - 1]);
      match entries[|entries| - 1]
      case File(_) => before
      case Directory(name, _) => before + [name]
  }

  /** The training set built by walking the listing: each person directory gets the next
      label id, and each of its readable images is added with that label. */
  function Training(entries: seq<DirEntry>): TrainingSet
    decreases |entries|
  {
    if entries == [] then TrainingSet([], [], map[], 0)
    else
      var t := Training(entries[..|entries| - 1]);
      match entries[|entries| - 1]
      case File(_) => t
      case Directory(name, images) =>
        var imgs := Readables(images);
        TrainingSet(t.faces + imgs, t.labels + seq(|imgs|, _ => t.nextId),
                    t.labelMap[t.nextId := name], t.nextId + 1)
  }

  /** The label map numbers the person directories 0, 1, 2, ... in listing order, a
      directory without readable images included, and skips plain files; there is one label
      per training image, every label is a key of the map, and labels never decrease. */
  lemma {:induction false} TrainingShape(entries: seq<DirEntry>)
    ensures var t := Training(entries);
      && t.nextId == |Directories(entries)|
      && (forall id :: id in t.labelMap <==> 0 <= id < t.nextId)
      && (forall id :: 0 <= id < t.nextId ==> t.labelMap[id] == Directories(entries)[id])
      && |t.faces| == |t.labels|
      && (forall i :: 0 <= i < |t.labels| ==> t.labels[i] in t.labelMap)
      && (forall i, j :: 0 <= i <= j < |t.labels| ==> t.labels[i] <= t.labels[j])
    decreases |entries|
  {
    if entries != [] {
      var n := |entries| - 1;
      TrainingShape(entries[..n]);
      var t0 := Training(entries[..n]);
      var t := Training(entries);
      match entries[n] {
        case File(_) =>
          assert t == t0;
          assert Directories(entries) == Directories(entries[..n]);
        case Directory(name, images) =>
          assert t.labelMap == t0.labelMap[t0.nextId := name];
          assert t.nextId == t0.nextId + 1;
          assert Directories(entries) == Directories(entries[..n]) + [name];
      }
    }
  }

  /** The training images are exactly the readable images of the person directories, and
      an image's label is the id of the directory it came from. */
  lemma {:induction false} TrainingImagesFromDirectories(entries: seq<DirEntry>, k: nat)
    requires k < |entries| && entries[k].Directory?
    ensures var t := Training(entries[..k + 1]);
      var imgs := Readables(entries[k].images);
      && t.faces == Training(entries[..k]).faces + imgs
      && t.labels == Training(entries[..k]).labels + seq(|imgs|, _ => |Directories(entries[..k])|)
      && |Directories(entries[..k])| in t.labelMap
      && t.labelMap[|Directories(entries[..k])|] == entries[k].name
  {
    var prefix := entries[..k + 1];
    assert prefix[..k] == entries[..k] && prefix[k] == entries[k];
    TrainingShape(entries[..k]);
    var t0 := Training(entries[..k]);
    var imgs := Readables(entries[k].images);
    assert Training(prefix) == TrainingSet(t0.faces + imgs, t0.labels + seq(|imgs|, _ => t0.nextId),
                                          t0.labelMap[t0.nextId := entries[k].name], t0.nextId + 1);
  }

  /** A readable image is kept, an unreadable one dropped. */
  lemma {:induction false} ReadablesCount(images: seq<ImageFile>)
    ensures |Readables(images)| <= |images|
    ensures (forall i :: 0 <= i < |images| ==> images[i].Unreadable?) ==> Readables(images) == []
    ensures (exists i :: 0 <= i < |images| && images[i].Readable?) ==> Readables(images) != []
    decreases |images|
  {
    if images != [] {
      var n := |images| - 1;
      ReadablesCount(images[..n]);
      assert forall i :: 0 <= i < n ==> images[..n][i] == images[i];
    }
  }

  /** Builds the training set over the listing. */
  method BuildTrainingSet(entries: seq<DirEntry>)
    returns (faces: seq<seq<int>>, labels: seq<nat>, labelMap: map<nat, string>)
    ensures TrainingSet(faces, labels, labelMap, |Directories(entries)|) == Training(entries)
    ensures |faces| == |labels|
    ensures forall id :: id in labelMap <==> 0 <= id < |Directories(entries)|
    ensures forall i :: 0 <= i < |labels| ==> labels[i] in labelMap
  {
    faces, labels, labelMap := [], [], map[];
    var labelId: nat := 0;
    var e := 0;
    while e < |entries|
      invariant 0 <= e <= |entries|
      invariant TrainingSet(faces, labels, labelMap, labelId) == Training(entries[..e])
    {
      assert entries[..e + 1][..e] == entries[..e];
      match entries[e] {
        case File(_) =>
        case Directory(name, images) =>
          labelMap := labelMap[labelId := name];
          ghost var faces0, labels0 := faces, labels;
          var m := 0;
          while m < |images|
            invariant 0 <= m <= |images|
            invariant faces == faces0 + Readables(images[..m])
            invariant labels == labels0 + seq(|Readables(images[..m])|, _ => labelId)
          {
            assert images[..m + 1][..m] == images[..m];
            match images[m] {
              case Unreadable =>
              case Readable(pixels) =>
                faces := faces + [pixels];
                labels := labels + [labelId];
            }
            m := m + 1;
          }
          assert images[..m] == images;
          labelId := labelId + 1;
      }
      e := e + 1;
    }
    assert entries[..e] == entries;
    TrainingShape(entries);
  }

  /** What an enrollment job returns: the label map of the retrained model, a failure, or
      (when the camera feed ran out first) a capture still in progress. */
  datatype AddFaceResult = Trained(labelMap: map<nat, string>) | Failed(error: EnrollError) | StillCapturing

  /** The enrollment job: check the cascade file, open the chosen source, capture, then
      build the training set; each failure ends the job with its error. Besides the result
      it reports how the job ended (`end`: the capture loop's outcome, or the failure that
      came before it), the saved crops and how many reads the capture consumed. */
  method AddFace(cameraIndex: int, videoSource: Option<string>, numImages: int, frameInterval: int,
                 display: bool, cascadeExists: bool, sourceOpens: bool,
                 feed: seq<CaptureRead>, listing: seq<DirEntry>)
    returns (r: AddFaceResult, end: Result<CaptureEnd>, saved: seq<SavedImage>, consumed: nat)
    ensures !cascadeExists ==> end == Failure(CascadeNotFound) && saved == [] && consumed == 0
    ensures cascadeExists && !sourceOpens ==>
      end == Failure(CannotOpenSource(SelectSource(videoSource, cameraIndex))) && saved == [] && consumed == 0
    ensures end.Failure? ==> r == Failed(end.error)
    ensures cascadeExists && sourceOpens ==>
      && consumed <= |feed|
      && SavesOf(saved, Sampled(AllFaces(feed[..consumed]), frameInterval), numImages)
      && (var stop := StopFrom(feed, 0, display, numImages, frameInterval);
          && (end == Success(InputEnded) <==> stop == |feed|)
          && consumed == (if stop == |feed| then |feed| else stop + 1))
      && (end != Success(InputEnded) ==> end == EndOf(feed[consumed - 1], frameInterval))
    ensures end == Success(InputEnded) ==> r == StillCapturing
    ensures end == Success(Stopped) && saved == [] ==> r == Failed(NoFacesCollected)
    ensures end == Success(Stopped) && saved != [] && Training(listing).faces == [] ==>
      r == Failed(NoTrainingImages)
    ensures end == Success(Stopped) && saved != [] && Training(listing).faces != [] ==>
      r == Trained(Training(listing).labelMap)
    ensures r.Trained? ==> forall id :: id in r.labelMap <==> 0 <= id < |Directories(listing)|
  {
    saved, consumed := [], 0;
    if !cascadeExists {
      end := Failure(CascadeNotFound);
      r := Failed(end.error);
      return;
    }
    var source := SelectSource(videoSource, cameraIndex);
    if !sourceOpens {
      end := Failure(CannotOpenSource(source));
      r := Failed(end.error);
      return;
    }
    var count, frameCount, current;
    end, count, frameCount, saved, consumed, current := Capture(source, cameraIndex, numImages, frameInterval, display, feed);
    match end {
      case Failure(error) =>
        r := Failed(error);
        return;
      case Success(InputEnded) =>
        r := StillCapturing;
        return;
      case Success(Stopped) =>
    }
    if count == 0 {
      r := Failed(NoFacesCollected);
      return;
    }
    var faces, _, labelMap := BuildTrainingSet(listing);
    if |faces| == 0 {
      r := Failed(NoTrainingImages);
      return;
    }
    r := Trained(labelMap);
  }
}
