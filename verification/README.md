# Smart-lock face recognition backend, modelled in Dafny

This project models the core of a smart-lock server's backend.

- **Face-recognition worker.** It watches a camera, recognises faces and publishes an `unlock` command on the MQTT topic `door/control`. A debounce stops it from unlocking again while the door is open and for `DOOR_HOLD_TIME` (7) seconds after an unlock.
- **Shared state.** The worker writes every annotated frame to a process-wide slot. The HTTP layer serves that slot as an MJPEG live stream. A registration flag, set and cleared over HTTP, stops the worker from unlocking while a new person is being enrolled.
- **Enrollment job.** It captures resized face crops of a new person. It then rebuilds the training set and label map from every stored person directory.

Files:

- `common.dfy`: face regions, frames with their drawn rectangles, and the interpolation rule used to resize a face crop to 200x200.
- `door.dfy`: the debounced unlock state machine as pure functions, with their properties. Time is an integer clock tick that stands for `time.time()`.
- `worker.dfy`: the classes `SharedState` (slot and flag) and `FaceRecognitionWorker`.
  - `ProcessFrame` is the per-frame method, proved against `Door.FrameStep`.
  - There are two capture loops. One is from `backend/function/camera_daemon.py` and reopens the device after a failed read. The other is from `backend/daemon.py` and stops at the first failed read.
  - The two worker copies have the same per-frame logic, so they share one `ProcessFrame`.
- `mjpeg.dfy`: the multipart chunk bytes (RFC 2046, section 5.1.1) and a strict reader. It proves that a client gets back exactly the payloads the server encoded. It also models both stream generators as loops.
- `enrollment.dfy`: choosing the capture source, the capture loop, building the training set, and the error exits of `add_face`.

The source's `while True` loops run over a finite sequence of observations. These are the results of the device reads, or what the slot held at each poll. A loop that has not stopped when the sequence runs out reports that it was still running.

## Model

| member | source | states |
|---|---|---|
| Door.InitialState | backend/function/camera_daemon.py:44-46 | A new worker starts with the door closed, last unlock at time 0, and a hold of 7. |
| Door.UnlockGuard | backend/function/camera_daemon.py:61-82 | One face publishes an unlock iff registration is not active, recognition succeeded with confidence below 100, the door flag is clear, and more than the hold time has passed since the last unlock. It then sets the flag and stamps the face's time. Otherwise it changes nothing. |
| Door.FaceLoopUnlocksOnce | backend/function/camera_daemon.py:55-85 | A frame's face loop unlocks at most once. It unlocks iff some face passes the guard against the starting state, and the unlock belongs to the first such face. With no unlock the state is unchanged. |
| Door.FrameUnlocksOnce | backend/daemon.py:53-81 | The same for a whole frame: at most one unlock, and it happens iff some face passes the guard against the state the frame started in. |
| Door.StaleOpenFlagBlocksUnlock | backend/function/camera_daemon.py:74 | While the flag is still set at the start of a frame, no face of that frame unlocks, even if the hold has already elapsed. The stamp is kept. |
| Door.FrameEndInvariant | backend/function/camera_daemon.py:87-90 | After the end-of-frame expiry check at time `now`, an open door was stamped at most one hold before `now`. A frame without faces only runs the expiry check, which clears an expired flag. |
| Door.RunSpacesUnlocks | backend/function/camera_daemon.py:71-90 | Over any run of frames: unlocks are more than a hold apart, and the first is more than a hold after the initial stamp. The stamp is the latest unlock, the hold never changes, and there are at most as many unlocks as frames. |
| Door.PausedRunNeverUnlocks | backend/function/camera_daemon.py:62-64 | While registration is active no frame unlocks. The stamp and hold are unchanged, and the door can only go from open to closed. |
| Door.HoldScenario | backend/function/camera_daemon.py:71-90 | A match 3 seconds after an unlock does nothing. The same match 8 seconds after it unlocks and restamps the door. With the flag still set it does not, and the expiry check clears the flag. |
| Worker.FaceBoxesOnePerFace | backend/function/camera_daemon.py:62-85 | Each face gets exactly one rectangle over its own region, in detection order. It is (255,165,0) in OpenCV's BGR order, a light blue, while registration is active, and (0,255,0), green, otherwise, whatever recognition returned. |
| Worker.SharedState.constructor | backend/function/camera_daemon.py:9-10 | The slot starts empty and the registration flag clear. |
| Worker.SharedState.PauseRegistration | backend/daemon.py:129-132 | Sets the registration flag and answers `paused`. |
| Worker.SharedState.ResumeRegistration | backend/daemon.py:135-138 | Clears the registration flag and answers `running`. |
| Worker.FaceRecognitionWorker.constructor | backend/function/camera_daemon.py:30-46 | The worker's door state is the initial state, and it keeps its video source and the shared state. |
| Worker.FaceRecognitionWorker.ProcessFrame | backend/function/camera_daemon.py:48-93 | The new door state and the published commands are those of `Door.FrameStep` on the old state and flag, with at most one command. An open door is within a hold of `now`. The slot holds the returned frame, annotated with one rectangle per face. |
| Worker.FaceRecognitionWorker.RunStreamReconnect | backend/function/camera_daemon.py:95-121 | If the source does not open, nothing happens. Otherwise every successful read is processed in order, giving the state and commands of `Door.Run` over those frames. Every failed read is one reopening, and the slot holds the last frame processed. |
| Worker.FaceRecognitionWorker.RunStreamStopOnFailure | backend/daemon.py:86-103 | If the source does not open, nothing happens. Otherwise exactly the reads before the first failed one are processed, with the result of `Door.Run` over them. |
| Worker.FirstFailure | backend/daemon.py:94-97 | The count of reads before the first failed one. All reads before it succeeded, and the read at it failed. |
| Common.Interpolation | backend/add_face.py:78-83 | Area interpolation iff the crop is wider or taller than 200, bicubic iff it fits in 200x200. |
| Mjpeg.DecimalRoundTrip | backend/daemon.py:119 | `str(len(payload)).encode()` is a canonical digit string (no leading zero) that denotes the length. |
| Mjpeg.CanonicalIsDecimal | backend/main.py:68 | Every canonical digit string is the rendering of the number it denotes. |
| Mjpeg.ChunkLayout | backend/main.py:66-69 | A chunk is exactly, in this order: `--frame\r\n`, `Content-Type: image/jpeg\r\n`, `Content-Length: `, the decimal length, `\r\n\r\n`, the payload, and `\r\n`. |
| Mjpeg.ParseChunk | backend/daemon.py:117-120 | Reading a part from a chunk followed by any bytes gives back the payload and leaves exactly those bytes. |
| Mjpeg.ParsedIsChunk | backend/daemon.py:117-120 | Whatever the reader accepts as one part is a chunk of the payload it reports, followed by the rest it reports. |
| Mjpeg.StreamRoundTrip | backend/main.py:66-69 | Reading the concatenated chunks of a list of payloads gives back that list. |
| Mjpeg.ParsedIsStream | backend/main.py:66-69 | Every body the reader accepts is the stream of the payloads it reports. |
| Mjpeg.FlattenChunks | backend/main.py:66-69 | Chunks yielded one per payload concatenate to the stream of those payloads, which reads back as the payloads. |
| Mjpeg.EmptySlotYieldsNothing | backend/main.py:47-56 | While the slot is empty nothing is yielded, and every poll counts as a wait. |
| Mjpeg.FirstRaise | backend/daemon.py:112 | The count of polls before the first one whose encoding raised. None before it raised, and the one at it did. |
| Mjpeg.MainStream | backend/main.py:39-75 | Yields one chunk per frame that encoded, in order, skipping empty slots, failed encodings and raised ones. The body reads back as exactly those payloads. The wait counter stays at most 300 and wraps with one warning for every 301 empty polls. |
| Mjpeg.DaemonStream | backend/daemon.py:106-121 | Yields one chunk per frame that encoded, in order, up to the first encoding that raises. It stops there and reports the raise. The body reads back as those payloads. |
| Enrollment.SelectSource | backend/add_face.py:43 | The explicit video source when one is given, the camera index otherwise. |
| Enrollment.Quota | backend/add_face.py:75-98 | The number of saves that fit in the budget: the least `m` with `2m >= num_images`, and 0 when `num_images <= 0`. |
| Enrollment.SampledEveryNth | backend/add_face.py:75 | With interval `d > 0`, the faces on the interval are faces 0, d, 2d, …, and there are `ceil(n / d)` of them. |
| Enrollment.SampledNever | backend/add_face.py:75 | With interval 0 no face is on the interval. |
| Enrollment.SavesEveryNth | backend/add_face.py:74-98 | The saves are faces 0, d, 2d, … of the capture, numbered 0, 2, 4, …, each with its interpolation. There are `min(Quota, ceil(n / d))` of them. |
| Enrollment.SaveFaces | backend/add_face.py:74-100 | One frame's face loop. With interval 0 and a face, it fails before changing anything. Otherwise every face is counted, and the saves grow as `SavesOf` describes. |
| Enrollment.StopFrom | backend/add_face.py:61-104 | The index of the first read, from a given one on, that ends the loop. Every read before it continues the loop. A failed read continues only if the camera reopened. A frame continues only if all of these hold: it is not a face under interval 0, the user did not quit the preview, and `count` after it is still below `num_images`. |
| Enrollment.Capture | backend/add_face.py:57-109 | The loop consumes exactly the reads up to and including the first one that ends it (`StopFrom`), or all reads if none does, and then it is still capturing. `count` is twice the number of saves. The saves are the budgeted prefix of the faces on the interval among the consumed reads. See the result column below this table for the exits and the source switch. |
| Enrollment.TrainingShape | backend/add_face.py:115-126 | Person directories get ids 0, 1, 2, … in listing order, including directories without readable images; plain files get none. The map's keys are exactly those ids. There is one label per training image, each label is a key, and labels never decrease. |
| Enrollment.TrainingImagesFromDirectories | backend/add_face.py:120-131 | A person directory adds exactly its readable images, each labelled with that directory's id, and maps the id to its name. |
| Enrollment.ReadablesCount | backend/add_face.py:123-127 | Unreadable images are skipped. A directory of only unreadable images adds none, and one with any readable image adds some. |
| Enrollment.BuildTrainingSet | backend/add_face.py:111-131 | The loops build exactly `Training(listing)`: the map's keys are the ids of the person directories, and every label is a key. |
| Enrollment.AddFace | backend/add_face.py:32-146 | The job ends exactly as the capture loop does, after the two start-up checks. Each way it can end gives exactly one result. See the exits below this table. |

Result column for `Enrollment.Capture`:

- The loop stops at the first read that ends it (`StopFrom`).
- Stop: a frame that is not a face under interval 0 ends the loop because the user quit the preview or `count >= num_images`.
- Lost camera: a failed read could not reopen the camera.
- Zero interval: interval 0 meets a frame with a face, and the remainder test divides by zero before anything of that frame is saved.
- Still capturing: no read ended the loop.
- After a failed read, capture continues from the camera index.

Exits for `Enrollment.AddFace`. The first two come before the capture loop; the others follow how it ended.

- A missing cascade file fails with nothing saved.
- A source that does not open fails and names that source, with nothing saved.
- A lost camera or a zero interval fails with that error.
- A loop still capturing when the reads run out reports that.
- A loop that stopped with no saves fails with no faces collected.
- A loop that stopped with saves fails when `Training(listing)` has no image.
- Otherwise the result is the label map of `Training(listing)`, whose keys are the person-directory ids.

## Left out

- OpenCV. Face detection, recognition, JPEG encoding, drawing pixels and resizing are inputs. Detections carry what recognition returned, and encodings are given per poll. Only the choice of interpolation is modelled.
- The MQTT client and its connection. Publishing is the returned list of commands.
- Threads. The model does not capture the worker and the HTTP handlers running concurrently on the slot and the flag. `ProcessFrame` reads the flag once per frame, and the two run loops read it once per run, since no other thread changes it in the model. The source reads it once per face. `Door.Run` takes the flag per frame, so a flag that changes between frames is covered at that level.
- Sleeps and log lines: the every-100-frames log, the 30-second warning text, and the "Door unlocked for <name>" message with its `label_map` lookup.
- Float time. `time.time()` is an integer tick. A face's tick is read after `predict` succeeds, and the expiry check has its own tick.
- `main.py` imports `global_processed_frame` by value at line 10 but reads the module attribute at line 47. The model has one shared slot.
- Files. Creating directories, writing and reading face images, training and saving the LBPH model, and pickling the label map are not modelled. The directory listing is an input, sorted and already holding the new person's directory.
- Enrollment.Capture: the number of images. The docstring at backend/add_face.py:21 calls `num_images` the number of images to collect. The loop adds 2 to `count` for every save, so it saves `ceil(num_images / 2)` files, numbered 0, 2, 4, …. The model follows the code.
- Door.FrameEndInvariant: the bound is `now - lastOpenTime <= hold`, not `<`. The flag is cleared only when more than the hold has passed (backend/function/camera_daemon.py:88). The model follows the code.
- Endless `while True` loops run over a finite sequence of reads or polls. A source that cannot be reopened in `run_stream` of backend/function/camera_daemon.py shows up as further failed reads.
- The `KeyboardInterrupt` and generic exception handlers of `run_stream` are not modelled. An exception inside `process_frame` other than recognition is not modelled either.
